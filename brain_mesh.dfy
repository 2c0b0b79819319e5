/** BrainMesh: vertices and index triangles, with per-triangle areas, their total, the
    distribution of each area to its corners in thirds, and the edge lengths. The square
    root is a parameter of the mesh. */
module BrainMeshModel {

  datatype Vertex = Vertex(x: real, y: real, z: real)

  /** std::array<INT, 3>: three vertex indices. */
  datatype Triangle = Triangle(v0: int, v1: int, v2: int)

  /** What the model needs of std::sqrt: on non-negative arguments, a non-negative root. */
  ghost predicate IsSqrt(sqrt: real -> real) {
    forall x :: 0.0 <= x ==> 0.0 <= sqrt(x) && sqrt(x) * sqrt(x) == x
  }

  predicate ValidIndex(vertices: seq<Vertex>, i: int) {
    0 <= i < |vertices|
  }

  /** Every corner of every triangle names a vertex. */
  predicate IndicesValid(vertices: seq<Vertex>, triangles: seq<Triangle>) {
    forall k :: 0 <= k < |triangles| ==>
      ValidIndex(vertices, triangles[k].v0) && ValidIndex(vertices, triangles[k].v1) && ValidIndex(vertices, triangles[k].v2)
  }

  function Sq(x: real): real { x * x }

  /** |r12 x r13|^2 for the edge vectors r12 = v2 - v1 and r13 = v3 - v1. */
  function CrossNormSquared(p: Vertex, q: Vertex, r: Vertex): (n: real)
    ensures n >= 0.0
  {
    var r12 := Vertex(q.x - p.x, q.y - p.y, q.z - p.z);
    var r13 := Vertex(r.x - p.x, r.y - p.y, r.z - p.z);
    Sq(r12.y * r13.z - r12.z * r13.y) + Sq(r12.z * r13.x - r12.x * r13.z) + Sq(r12.x * r13.y - r12.y * r13.x)
  }

  /** getTriangleArea: half the length of the cross product. */
  function TriangleArea(sqrt: real -> real, vertices: seq<Vertex>, t: Triangle): real
    requires ValidIndex(vertices, t.v0) && ValidIndex(vertices, t.v1) && ValidIndex(vertices, t.v2)
  {
    0.5 * sqrt(CrossNormSquared(vertices[t.v0], vertices[t.v1], vertices[t.v2]))
  }

  lemma TriangleAreaNonNegative(sqrt: real -> real, vertices: seq<Vertex>, t: Triangle)
    requires IsSqrt(sqrt)
    requires ValidIndex(vertices, t.v0) && ValidIndex(vertices, t.v1) && ValidIndex(vertices, t.v2)
    ensures TriangleArea(sqrt, vertices, t) >= 0.0
  {
  }

  /** A square root satisfying IsSqrt maps 1 to 1. */
  lemma SqrtOfOne(sqrt: real -> real)
    requires IsSqrt(sqrt)
    ensures sqrt(1.0) == 1.0
  {
    var s := sqrt(1.0);
    assert (s - 1.0) * (s + 1.0) == s * s - 1.0 == 0.0;
    ZeroProduct(s - 1.0, s + 1.0);
  }

  lemma ZeroProduct(x: real, y: real)
    requires x * y == 0.0 && y > 0.0
    ensures x == 0.0
  {
    assert x == (x * y) / y;
  }

  lemma RightCrossNorm()
    ensures CrossNormSquared(Vertex(0.0, 0.0, 0.0), Vertex(1.0, 0.0, 0.0), Vertex(0.0, 1.0, 0.0)) == 1.0
  {
    assert Sq(0.0) == 0.0 && Sq(1.0) == 1.0;
  }

  /** The right triangle (0,0,0), (1,0,0), (0,1,0) has area 1/2. */
  lemma RightTriangleArea(sqrt: real -> real)
    requires IsSqrt(sqrt)
    ensures TriangleArea(sqrt, [Vertex(0.0, 0.0, 0.0), Vertex(1.0, 0.0, 0.0), Vertex(0.0, 1.0, 0.0)], Triangle(0, 1, 2)) == 0.5
  {
    var vs := [Vertex(0.0, 0.0, 0.0), Vertex(1.0, 0.0, 0.0), Vertex(0.0, 1.0, 0.0)];
    assert vs[0] == Vertex(0.0, 0.0, 0.0) && vs[1] == Vertex(1.0, 0.0, 0.0) && vs[2] == Vertex(0.0, 1.0, 0.0);
    RightCrossNorm();
    SqrtOfOne(sqrt);
  }

  /** The area of each triangle, in triangle order. */
  function Areas(sqrt: real -> real, vertices: seq<Vertex>, triangles: seq<Triangle>): (areas: seq<real>)
    requires IndicesValid(vertices, triangles)
    ensures |areas| == |triangles|
    decreases |triangles|
  {
    if triangles == [] then []
    else Areas(sqrt, vertices, triangles[..|triangles| - 1]) + [TriangleArea(sqrt, vertices, triangles[|triangles| - 1])]
  }

  lemma {:induction false} AreasNonNegative(sqrt: real -> real, vertices: seq<Vertex>, triangles: seq<Triangle>)
    requires IsSqrt(sqrt) && IndicesValid(vertices, triangles)
    ensures forall i :: 0 <= i < |triangles| ==> Areas(sqrt, vertices, triangles)[i] >= 0.0
    decreases |triangles|
  {
    if triangles != [] {
      var init := triangles[..|triangles| - 1];
      AreasNonNegative(sqrt, vertices, init);
      TriangleAreaNonNegative(sqrt, vertices, triangles[|triangles| - 1]);
    }
  }

  function Sum(xs: seq<real>): real
    decreases |xs|
  {
    if xs == [] then 0.0 else Sum(xs[..|xs| - 1]) + xs[|xs| - 1]
  }

  lemma {:induction false} SumNonNegative(xs: seq<real>)
    requires forall i :: 0 <= i < |xs| ==> xs[i] >= 0.0
    ensures Sum(xs) >= 0.0
    decreases |xs|
  {
    if xs != [] {
      SumNonNegative(xs[..|xs| - 1]);
    }
  }

  /** With a non-negative square root the triangle areas add up to a non-negative total. */
  lemma TotalAreaNonNegative(sqrt: real -> real, vertices: seq<Vertex>, triangles: seq<Triangle>)
    requires IndicesValid(vertices, triangles)
    ensures IsSqrt(sqrt) ==> Sum(Areas(sqrt, vertices, triangles)) >= 0.0
  {
    if IsSqrt(sqrt) {
      AreasNonNegative(sqrt, vertices, triangles);
      SumNonNegative(Areas(sqrt, vertices, triangles));
    }
  }

  /** Adding d to one entry adds d to the sum. */
  lemma {:induction false} SumAddAt(xs: seq<real>, i: int, d: real)
    requires 0 <= i < |xs|
    ensures Sum(xs[i := xs[i] + d]) == Sum(xs) + d
    decreases |xs|
  {
    var ys := xs[i := xs[i] + d];
    var last := |xs| - 1;
    assert ys[..last] == if i < last then xs[..last][i := xs[i] + d] else xs[..last];
    if i < last {
      SumAddAt(xs[..last], i, d);
    }
  }

  function Zeros(n: nat): (z: seq<real>)
    ensures |z| == n && forall i :: 0 <= i < n ==> z[i] == 0.0
  {
    seq(n, _ => 0.0)
  }

  lemma {:induction false} SumZeros(n: nat)
    ensures Sum(Zeros(n)) == 0.0
  {
    if n > 0 {
      assert Zeros(n)[..n - 1] == Zeros(n - 1);
      SumZeros(n - 1);
    }
  }

  /** std::vector::resize(n, 0): truncate, or pad with zeros; existing entries are kept. */
  function Resize(xs: seq<real>, n: nat): (r: seq<real>)
    ensures |r| == n
    ensures forall i :: 0 <= i < n ==> r[i] == (if i < |xs| then xs[i] else 0.0)
  {
    if |xs| >= n then xs[..n] else xs + Zeros(n - |xs|)
  }

  /** Adds share to the entries at the given corners, one corner after the other. */
  function AddShare(acc: seq<real>, corners: seq<int>, share: real): (r: seq<real>)
    requires forall j :: 0 <= j < |corners| ==> 0 <= corners[j] < |acc|
    ensures |r| == |acc|
    decreases |corners|
  {
    if corners == [] then acc
    else AddShare(acc[corners[0] := acc[corners[0]] + share], corners[1..], share)
  }

  /** d added n times. */
  function Times(n: nat, d: real): real {
    if n == 0 then 0.0 else Times(n - 1, d) + d
  }

  /** Adding share at each corner adds |corners| shares to the sum. */
  lemma {:induction false} AddShareConserves(acc: seq<real>, corners: seq<int>, share: real)
    requires forall j :: 0 <= j < |corners| ==> 0 <= corners[j] < |acc|
    ensures Sum(AddShare(acc, corners, share)) == Sum(acc) + Times(|corners|, share)
    decreases |corners|
  {
    if corners != [] {
      var next := acc[corners[0] := acc[corners[0]] + share];
      SumAddAt(acc, corners[0], share);
      AddShareConserves(next, corners[1..], share);
    }
  }

  /** Adds area/3 to each of the three corners of a triangle. */
  function Spread(acc: seq<real>, t: Triangle, area: real): seq<real>
    requires 0 <= t.v0 < |acc| && 0 <= t.v1 < |acc| && 0 <= t.v2 < |acc|
  {
    AddShare(acc, [t.v0, t.v1, t.v2], area / 3.0)
  }

  /** Spread is the three in-place updates computeVertexAreas makes, in its order. */
  lemma SpreadUpdates(acc: seq<real>, t: Triangle, area: real)
    requires 0 <= t.v0 < |acc| && 0 <= t.v1 < |acc| && 0 <= t.v2 < |acc|
    ensures var s0 := acc[t.v0 := acc[t.v0] + area / 3.0];
            var s1 := s0[t.v1 := s0[t.v1] + area / 3.0];
            Spread(acc, t, area) == s1[t.v2 := s1[t.v2] + area / 3.0]
  {
    var d := area / 3.0;
    var s0 := acc[t.v0 := acc[t.v0] + d];
    var s1 := s0[t.v1 := s0[t.v1] + d];
    assert [t.v0, t.v1, t.v2][1..] == [t.v1, t.v2];
    assert [t.v1, t.v2][1..] == [t.v2];
    assert [t.v2][1..] == [];
    assert AddShare(acc, [t.v0, t.v1, t.v2], d) == AddShare(s0, [t.v1, t.v2], d);
    assert AddShare(s0, [t.v1, t.v2], d) == AddShare(s1, [t.v2], d);
    assert AddShare(s1, [t.v2], d) == AddShare(s1[t.v2 := s1[t.v2] + d], [], d);
  }

  /** Spreading one triangle adds its whole area to the total. */
  lemma SpreadConserves(acc: seq<real>, t: Triangle, area: real)
    requires 0 <= t.v0 < |acc| && 0 <= t.v1 < |acc| && 0 <= t.v2 < |acc|
    ensures Sum(Spread(acc, t, area)) == Sum(acc) + area
  {
    CornerThirdsConserve(acc, t, area);
  }

  /** Adding a third of the area at each of the three corners adds the whole area. */
  lemma CornerThirdsConserve(acc: seq<real>, t: Triangle, area: real)
    requires 0 <= t.v0 < |acc| && 0 <= t.v1 < |acc| && 0 <= t.v2 < |acc|
    ensures Sum(AddShare(acc, [t.v0, t.v1, t.v2], area / 3.0)) == Sum(acc) + area
  {
    ThreeThirds(area);
    AddShareConserves(acc, [t.v0, t.v1, t.v2], area / 3.0);
  }

  /** Helper: the three corner shares of a triangle add back to its area. */
  lemma ThreeThirds(area: real)
    ensures Times(3, area / 3.0) == area
  {
    var third := area / 3.0;
    assert Times(1, third) == third;
    assert Times(2, third) == third + third;
  }

  /** The vertex areas after the first k triangles have been spread onto `start`. */
  function Distribute(start: seq<real>, triangles: seq<Triangle>, areas: seq<real>, k: nat): (r: seq<real>)
    requires k <= |triangles| && k <= |areas|
    requires forall j :: 0 <= j < |triangles| ==>
               0 <= triangles[j].v0 < |start| && 0 <= triangles[j].v1 < |start| && 0 <= triangles[j].v2 < |start|
    ensures |r| == |start|
  {
    if k == 0 then start else Spread(Distribute(start, triangles, areas, k - 1), triangles[k - 1], areas[k - 1])
  }

  /** Spreading moves area, never creates or loses it: the vertex areas grow in total by
      exactly the areas of the triangles spread. */
  lemma {:induction false} DistributeConserves(start: seq<real>, triangles: seq<Triangle>, areas: seq<real>, k: nat)
    requires k <= |triangles| && k <= |areas|
    requires forall j :: 0 <= j < |triangles| ==>
               0 <= triangles[j].v0 < |start| && 0 <= triangles[j].v1 < |start| && 0 <= triangles[j].v2 < |start|
    ensures Sum(Distribute(start, triangles, areas, k)) == Sum(start) + Sum(areas[..k])
  {
    if k > 0 {
      DistributeConserves(start, triangles, areas, k - 1);
      SpreadConserves(Distribute(start, triangles, areas, k - 1), triangles[k - 1], areas[k - 1]);
      assert areas[..k][..k - 1] == areas[..k - 1];
    }
  }

  /** The squared distance between two vertices. */
  function SquaredDistance(p: Vertex, q: Vertex): (d: real)
    ensures d >= 0.0
  {
    Sq(q.x - p.x) + Sq(q.y - p.y) + Sq(q.z - p.z)
  }

  /** The three edge lengths of a triangle: v1-v2, v2-v3, v1-v3. */
  function TriangleEdges(sqrt: real -> real, vertices: seq<Vertex>, t: Triangle): seq<real>
    requires ValidIndex(vertices, t.v0) && ValidIndex(vertices, t.v1) && ValidIndex(vertices, t.v2)
  {
    var p, q, r := vertices[t.v0], vertices[t.v1], vertices[t.v2];
    [sqrt(SquaredDistance(p, q)), sqrt(SquaredDistance(q, r)), sqrt(SquaredDistance(p, r))]
  }

  function EdgeLengths(sqrt: real -> real, vertices: seq<Vertex>, triangles: seq<Triangle>): seq<real>
    requires IndicesValid(vertices, triangles)
    decreases |triangles|
  {
    if triangles == [] then []
    else EdgeLengths(sqrt, vertices, triangles[..|triangles| - 1]) + TriangleEdges(sqrt, vertices, triangles[|triangles| - 1])
  }

  /** Three non-negative lengths per triangle, the triangle's edges at positions 3k .. 3k+2. */
  lemma {:induction false} EdgeLengthsShape(sqrt: real -> real, vertices: seq<Vertex>, triangles: seq<Triangle>)
    requires IsSqrt(sqrt) && IndicesValid(vertices, triangles)
    ensures |EdgeLengths(sqrt, vertices, triangles)| == 3 * |triangles|
    ensures forall i :: 0 <= i < 3 * |triangles| ==> EdgeLengths(sqrt, vertices, triangles)[i] >= 0.0
    decreases |triangles|
  {
    if triangles != [] {
      var init := triangles[..|triangles| - 1];
      EdgeLengthsShape(sqrt, vertices, init);
      var t := triangles[|triangles| - 1];
      var edges := TriangleEdges(sqrt, vertices, t);
      assert forall j :: 0 <= j < 3 ==> edges[j] >= 0.0 by {
        var p, q, r := vertices[t.v0], vertices[t.v1], vertices[t.v2];
        assert SquaredDistance(p, q) >= 0.0 && SquaredDistance(q, r) >= 0.0 && SquaredDistance(p, r) >= 0.0;
      }
    }
  }

  /** The loop of getTotalArea: one area per triangle appended in order, and their running
      sum. */
  method TriangleAreasAndTotal(sqrt: real -> real, vertices: seq<Vertex>, triangles: seq<Triangle>)
    returns (areas: seq<real>, total: real)
    requires IndicesValid(vertices, triangles)
    ensures areas == Areas(sqrt, vertices, triangles)
    ensures total == Sum(areas)
  {
    areas, total := [], 0.0;
    for i := 0 to |triangles|
      invariant IndicesValid(vertices, triangles[..i])
      invariant areas == Areas(sqrt, vertices, triangles[..i])
      invariant total == Sum(areas)
    {
      assert triangles[..i + 1][..i] == triangles[..i];
      var area := TriangleArea(sqrt, vertices, triangles[i]);
      areas := areas + [area];
      total := total + area;
    }
    assert triangles[..|triangles|] == triangles;
  }

  class BrainMesh {
    const sqrt: real -> real
    var vertices: seq<Vertex>
    var triangles: seq<Triangle>
    var triangleAreas: seq<real>
    var vertexAreas: seq<real>
    var edgeLengths: seq<real>
    var totalArea: real
    var nbPoints: int
    var nbTriangles: int
    var name: string

    constructor (name: string, sqrt: real -> real)
      ensures this.name == name && this.sqrt == sqrt
      ensures totalArea == 0.0 && nbPoints == 0 && nbTriangles == 0
      ensures vertices == [] && triangles == [] && triangleAreas == [] && vertexAreas == [] && edgeLengths == []
    {
      this.name, this.sqrt := name, sqrt;
      totalArea, nbPoints, nbTriangles := 0.0, 0, 0;
      vertices, triangles, triangleAreas, vertexAreas, edgeLengths := [], [], [], [], [];
    }

    /** getVertices().push_back(v). */
    method AddVertex(v: Vertex)
      modifies this
      ensures vertices == old(vertices) + [v]
      ensures triangles == old(triangles) && triangleAreas == old(triangleAreas) && vertexAreas == old(vertexAreas)
      ensures totalArea == old(totalArea) && edgeLengths == old(edgeLengths)
      ensures nbPoints == old(nbPoints) && nbTriangles == old(nbTriangles) && name == old(name)
    {
      vertices := vertices + [v];
    }

    /** getTriangles().push_back(t). */
    method AddTriangle(t: Triangle)
      modifies this
      ensures triangles == old(triangles) + [t]
      ensures vertices == old(vertices) && triangleAreas == old(triangleAreas) && vertexAreas == old(vertexAreas)
      ensures totalArea == old(totalArea) && edgeLengths == old(edgeLengths)
      ensures nbPoints == old(nbPoints) && nbTriangles == old(nbTriangles) && name == old(name)
    {
      triangles := triangles + [t];
    }

    /** getTotalArea: resets the total and the area list, then appends one area per triangle
        and returns their sum; the loop is TriangleAreasAndTotal, whose result replaces both
        fields. The result depends only on the vertices and triangles, so calling it again
        gives the same lists and total. */
    method GetTotalArea() returns (total: real)
      requires IndicesValid(vertices, triangles)
      modifies this
      ensures vertices == old(vertices) && triangles == old(triangles) && vertexAreas == old(vertexAreas)
      ensures edgeLengths == old(edgeLengths)
      ensures nbPoints == old(nbPoints) && nbTriangles == old(nbTriangles) && name == old(name)
      ensures triangleAreas == Areas(sqrt, vertices, triangles)
      ensures total == totalArea == Sum(triangleAreas)
      ensures IsSqrt(sqrt) ==> total >= 0.0
    {
      var areas, sum := TriangleAreasAndTotal(sqrt, vertices, triangles);
      TotalAreaNonNegative(sqrt, vertices, triangles);
      triangleAreas, totalArea := areas, sum;
      total := totalArea;
    }

    /** computeVertexAreas: resizes the vertex areas to one per vertex (keeping the entries
        already there, new ones 0) and adds a third of each triangle's area to each of its
        corners. The vertex areas grow in total by the sum of the triangle areas. */
    method ComputeVertexAreas()
      requires IndicesValid(vertices, triangles)
      requires |triangleAreas| >= |triangles|
      modifies this
      ensures vertices == old(vertices) && triangles == old(triangles) && triangleAreas == old(triangleAreas)
      ensures totalArea == old(totalArea) && edgeLengths == old(edgeLengths)
      ensures nbPoints == old(nbPoints) && nbTriangles == old(nbTriangles) && name == old(name)
      ensures vertexAreas == Distribute(Resize(old(vertexAreas), |vertices|), triangles, triangleAreas, |triangles|)
      ensures Sum(vertexAreas) == Sum(Resize(old(vertexAreas), |vertices|)) + Sum(triangleAreas[..|triangles|])
    {
      var areas := Resize(vertexAreas, |vertices|);
      ghost var start := areas;
      for i := 0 to |triangles|
        invariant vertices == old(vertices) && triangles == old(triangles) && triangleAreas == old(triangleAreas)
        invariant totalArea == old(totalArea) && edgeLengths == old(edgeLengths)
        invariant nbPoints == old(nbPoints) && nbTriangles == old(nbTriangles) && name == old(name)
        invariant |areas| == |vertices|
        invariant areas == Distribute(start, triangles, triangleAreas, i)
      {
        var triangle := triangles[i];
        var area := triangleAreas[i];
        ghost var before := areas;
        areas := areas[triangle.v0 := areas[triangle.v0] + area / 3.0];
        areas := areas[triangle.v1 := areas[triangle.v1] + area / 3.0];
        areas := areas[triangle.v2 := areas[triangle.v2] + area / 3.0];
        SpreadUpdates(before, triangle, area);
      }
      vertexAreas := areas;
      DistributeConserves(start, triangles, triangleAreas, |triangles|);
    }

    /** getEdgeLengths: clears the list and appends the three edge lengths of every triangle. */
    method GetEdgeLengths() returns (lengths: seq<real>)
      requires IndicesValid(vertices, triangles)
      modifies this
      ensures vertices == old(vertices) && triangles == old(triangles) && triangleAreas == old(triangleAreas)
      ensures vertexAreas == old(vertexAreas) && totalArea == old(totalArea)
      ensures nbPoints == old(nbPoints) && nbTriangles == old(nbTriangles) && name == old(name)
      ensures lengths == edgeLengths == EdgeLengths(sqrt, vertices, triangles)
      ensures IsSqrt(sqrt) ==> |lengths| == 3 * |triangles| && forall i :: 0 <= i < |lengths| ==> lengths[i] >= 0.0
    {
      edgeLengths := [];
      for i := 0 to |triangles|
        invariant vertices == old(vertices) && triangles == old(triangles) && triangleAreas == old(triangleAreas)
        invariant vertexAreas == old(vertexAreas) && totalArea == old(totalArea)
        invariant nbPoints == old(nbPoints) && nbTriangles == old(nbTriangles) && name == old(name)
        invariant IndicesValid(vertices, triangles[..i])
        invariant edgeLengths == EdgeLengths(sqrt, vertices, triangles[..i])
      {
        assert triangles[..i + 1][..i] == triangles[..i];
        edgeLengths := edgeLengths + TriangleEdges(sqrt, vertices, triangles[i]);
      }
      assert triangles[..|triangles|] == triangles;
      if IsSqrt(sqrt) {
        EdgeLengthsShape(sqrt, vertices, triangles);
      }
      lengths := edgeLengths;
    }

    /** getVertexAreas: a copy of the vertex areas. */
    function GetVertexAreas(): seq<real>
      reads this
    {
      vertexAreas
    }

    /** getTriangleAreas: a copy of the triangle areas. */
    function GetTriangleAreas(): seq<real>
      reads this
    {
      triangleAreas
    }
  }

  /** Starting from no vertex areas, computeVertexAreas after getTotalArea hands out exactly
      the total area to the vertices. */
  lemma VertexAreasSumToTotal(sqrt: real -> real, vertices: seq<Vertex>, triangles: seq<Triangle>)
    requires IndicesValid(vertices, triangles)
    ensures var areas := Areas(sqrt, vertices, triangles);
            Sum(Distribute(Resize([], |vertices|), triangles, areas, |triangles|)) == Sum(areas)
  {
    var areas := Areas(sqrt, vertices, triangles);
    DistributeConserves(Resize([], |vertices|), triangles, areas, |triangles|);
    assert Resize([], |vertices|) == Zeros(|vertices|);
    SumZeros(|vertices|);
    assert areas[..|triangles|] == areas;
  }

  /** Resizing to the current size changes nothing. */
  lemma ResizeSameSize(xs: seq<real>)
    ensures Resize(xs, |xs|) == xs
  {
  }

  /** resize does not zero the entries already there, so a second computeVertexAreas after
      the first hands out the triangle areas once more: the vertex areas then total twice
      the mesh area. */
  lemma SecondComputeAddsAgain(sqrt: real -> real, vertices: seq<Vertex>, triangles: seq<Triangle>)
    requires IndicesValid(vertices, triangles)
    ensures var areas := Areas(sqrt, vertices, triangles);
            var once := Distribute(Resize([], |vertices|), triangles, areas, |triangles|);
            Sum(Distribute(Resize(once, |vertices|), triangles, areas, |triangles|)) == 2.0 * Sum(areas)
  {
    var areas := Areas(sqrt, vertices, triangles);
    var once := Distribute(Resize([], |vertices|), triangles, areas, |triangles|);
    VertexAreasSumToTotal(sqrt, vertices, triangles);
    ResizeSameSize(once);
    DistributeConserves(once, triangles, areas, |triangles|);
    assert areas[..|triangles|] == areas;
  }
}
