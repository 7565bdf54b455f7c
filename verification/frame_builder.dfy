/**
 * The authoring step: probes the deformation chain with unit offsets of the
 * original (intermediate) mesh along x, y and z, assembles for every vertex the
 * frame whose rows 0-2 are the base mesh's responses and whose row 3 is the
 * corrective point, and stores the inverses of those frames together with a
 * snapshot of the base points.
 *
 * The deformation chain is a function from the original mesh's points to the
 * base mesh's points; the host scene it stands for is not modelled.
 */
module FrameBuilder {
  import opened Wrappers
  import opened Geometry

  const SelectionError: string := "Select base then corrective"

  /** A mesh name the caller passed: neither missing nor empty. */
  predicate Given(name: Option<string>)
  {
    name.Some? && name.value != ""
  }

  /** The (base, corrective) pair: the arguments when both are given, otherwise
      the current selection, which must hold exactly two meshes. */
  function ResolveMeshes(base: Option<string>, corrective: Option<string>, selection: seq<string>): (r: Result<(string, string), string>)
    ensures r.Success? <==> (Given(base) && Given(corrective)) || |selection| == 2
    ensures Given(base) && Given(corrective) ==> r == Success((base.value, corrective.value))
    ensures !(Given(base) && Given(corrective)) && |selection| == 2 ==> r == Success((selection[0], selection[1]))
    ensures r.Failure? ==> r.error == SelectionError
  {
    if Given(base) && Given(corrective) then Success((base.value, corrective.value))
    else if |selection| != 2 then Failure(SelectionError)
    else Success((selection[0], selection[1]))
  }

  datatype Axis = X | Y | Z

  /** p moved by 1.0 along the axis. */
  function Shifted(p: Point, axis: Axis): Point
  {
    match axis
    case X => p.(x := p.x + 1.0)
    case Y => p.(y := p.y + 1.0)
    case Z => p.(z := p.z + 1.0)
  }

  /** A copy of the original points whose first count points are shifted along the axis. */
  function Probe(orig: seq<Point>, count: nat, axis: Axis): (r: seq<Point>)
    requires count <= |orig|
    ensures |r| == |orig|
  {
    seq(|orig|, i requires 0 <= i < |orig| => if i < count then Shifted(orig[i], axis) else orig[i])
  }

  /**
   * Copies the original points three times and shifts the first pointCount
   * points of each copy in place by 1.0, along x, y and z respectively.
   */
  method MakeProbes(orig: seq<Point>, pointCount: nat) returns (xs: seq<Point>, ys: seq<Point>, zs: seq<Point>)
    requires pointCount <= |orig|
    ensures |xs| == |orig| && |ys| == |orig| && |zs| == |orig|
    ensures forall i :: 0 <= i < pointCount ==>
      && xs[i] == Point(orig[i].x + 1.0, orig[i].y, orig[i].z)
      && ys[i] == Point(orig[i].x, orig[i].y + 1.0, orig[i].z)
      && zs[i] == Point(orig[i].x, orig[i].y, orig[i].z + 1.0)
    ensures forall i :: pointCount <= i < |orig| ==> xs[i] == orig[i] && ys[i] == orig[i] && zs[i] == orig[i]
    ensures xs == Probe(orig, pointCount, X) && ys == Probe(orig, pointCount, Y) && zs == Probe(orig, pointCount, Z)
  {
    var xPoints := new Point[|orig|](i requires 0 <= i < |orig| => orig[i]);
    var yPoints := new Point[|orig|](i requires 0 <= i < |orig| => orig[i]);
    var zPoints := new Point[|orig|](i requires 0 <= i < |orig| => orig[i]);
    for i := 0 to pointCount
      invariant forall k :: 0 <= k < i ==>
        xPoints[k] == Shifted(orig[k], X) && yPoints[k] == Shifted(orig[k], Y) && zPoints[k] == Shifted(orig[k], Z)
      invariant forall k :: i <= k < |orig| ==> xPoints[k] == orig[k] && yPoints[k] == orig[k] && zPoints[k] == orig[k]
    {
      xPoints[i] := xPoints[i].(x := xPoints[i].x + 1.0);
      yPoints[i] := yPoints[i].(y := yPoints[i].y + 1.0);
      zPoints[i] := zPoints[i].(z := zPoints[i].z + 1.0);
    }
    xs, ys, zs := xPoints[..], yPoints[..], zPoints[..];
  }

  /** Writes one cell of a 4x4 matrix. */
  method SetMatrixCell(matrix: array2<real>, value: real, row: nat, column: nat)
    requires matrix.Length0 == 4 && matrix.Length1 == 4
    requires row < 4 && column < 4
    modifies matrix
    ensures matrix[row, column] == value
    ensures forall i, j :: 0 <= i < 4 && 0 <= j < 4 && (i != row || j != column) ==> matrix[i, j] == old(matrix[i, j])
  {
    matrix[row, column] := value;
  }

  /** Writes columns 0-2 of a row with the vector's x, y and z; column 3 of the
      row and the other rows stay as they were. */
  method SetMatrixRow(matrix: array2<real>, v: Point, row: nat)
    requires matrix.Length0 == 4 && matrix.Length1 == 4
    requires row < 4
    modifies matrix
    ensures matrix[row, 0] == v.x && matrix[row, 1] == v.y && matrix[row, 2] == v.z
    ensures matrix[row, 3] == old(matrix[row, 3])
    ensures forall i, j :: 0 <= i < 4 && 0 <= j < 4 && i != row ==> matrix[i, j] == old(matrix[i, j])
  {
    SetMatrixCell(matrix, v.x, row, 0);
    SetMatrixCell(matrix, v.y, row, 1);
    SetMatrixCell(matrix, v.z, row, 2);
  }

  /** The value held by a 4x4 array. */
  function MatrixOf(matrix: array2<real>): Matrix
    requires matrix.Length0 == 4 && matrix.Length1 == 4
    reads matrix
  {
    Matrix(Row(matrix[0, 0], matrix[0, 1], matrix[0, 2], matrix[0, 3]),
           Row(matrix[1, 0], matrix[1, 1], matrix[1, 2], matrix[1, 3]),
           Row(matrix[2, 0], matrix[2, 1], matrix[2, 2], matrix[2, 3]),
           Row(matrix[3, 0], matrix[3, 1], matrix[3, 2], matrix[3, 3]))
  }

  /** The frame of one vertex: the responses to the three unit offsets as rows
      0-2 and the corrective point as row 3, with column 3 as in the identity. */
  function Frame(xAxis: Point, yAxis: Point, zAxis: Point, corrective: Point): Matrix
  {
    Matrix(Row(xAxis.x, xAxis.y, xAxis.z, 0.0),
           Row(yAxis.x, yAxis.y, yAxis.z, 0.0),
           Row(zAxis.x, zAxis.y, zAxis.z, 0.0),
           Row(corrective.x, corrective.y, corrective.z, 1.0))
  }

  /**
   * Starts from the identity matrix and writes the three axis responses and the
   * corrective point into rows 0-3, one cell at a time.
   */
  method AssembleFrame(xAxis: Point, yAxis: Point, zAxis: Point, corrective: Point) returns (frame: Matrix)
    ensures frame.r0 == Row(xAxis.x, xAxis.y, xAxis.z, 0.0)
    ensures frame.r1 == Row(yAxis.x, yAxis.y, yAxis.z, 0.0)
    ensures frame.r2 == Row(zAxis.x, zAxis.y, zAxis.z, 0.0)
    ensures frame.r3 == Row(corrective.x, corrective.y, corrective.z, 1.0)
    ensures Col(frame, 3) == AffineColumn
  {
    var matrix := new real[4, 4]((i, j) => if i == j then 1.0 else 0.0);
    SetMatrixRow(matrix, xAxis, 0);
    SetMatrixRow(matrix, yAxis, 1);
    SetMatrixRow(matrix, zAxis, 2);
    SetMatrixRow(matrix, corrective, 3);
    frame := MatrixOf(matrix);
  }

  /** The frame of vertex i, from the probed responses, the base points and the corrective points. */
  function FrameAt(xs: seq<Point>, ys: seq<Point>, zs: seq<Point>, base: seq<Point>, corrective: seq<Point>, i: nat): Matrix
    requires i < |xs| && i < |ys| && i < |zs| && i < |base| && i < |corrective|
  {
    Frame(Sub(xs[i], base[i]), Sub(ys[i], base[i]), Sub(zs[i], base[i]), corrective[i])
  }

  /**
   * One inverted frame per vertex index 0..pointCount-1, in index order: the
   * matrix array the deformer reads.
   */
  method BuildFrames(xs: seq<Point>, ys: seq<Point>, zs: seq<Point>, base: seq<Point>, corrective: seq<Point>, pointCount: nat)
    returns (matrices: seq<Matrix>)
    requires pointCount <= |xs| && pointCount <= |ys| && pointCount <= |zs|
    requires pointCount <= |base| && pointCount <= |corrective|
    requires forall i :: 0 <= i < pointCount ==> Invertible(FrameAt(xs, ys, zs, base, corrective, i))
    ensures |matrices| == pointCount
    ensures forall i :: 0 <= i < pointCount ==> IsInverse(FrameAt(xs, ys, zs, base, corrective, i), matrices[i])
  {
    matrices := [];
    for i := 0 to pointCount
      invariant |matrices| == i
      invariant forall k :: 0 <= k < i ==> IsInverse(FrameAt(xs, ys, zs, base, corrective, k), matrices[k])
    {
      var frame := AssembleFrame(Sub(xs[i], base[i]), Sub(ys[i], base[i]), Sub(zs[i], base[i]), corrective[i]);
      assert frame == FrameAt(xs, ys, zs, base, corrective, i);
      matrices := matrices + [Inverse(frame)];
    }
  }

  /** A mesh whose points the authoring step overwrites and restores. */
  class Mesh {
    var points: seq<Point>
  }

  /**
   * What the solve needs of its inputs: at least as many original and corrective
   * points as the base mesh has, probed responses for every base point, and an
   * invertible frame at every vertex.
   */
  ghost predicate Solvable(origPoints: seq<Point>, chain: seq<Point> -> seq<Point>, corrective: seq<Point>)
  {
    var base := chain(origPoints);
    var n := |base|;
    && n <= |origPoints|
    && n <= |corrective|
    && var xs := chain(Probe(origPoints, n, X));
    && var ys := chain(Probe(origPoints, n, Y));
    && var zs := chain(Probe(origPoints, n, Z));
    && n <= |xs| && n <= |ys| && n <= |zs|
    && forall i :: 0 <= i < n ==> Invertible(FrameAt(xs, ys, zs, base, corrective, i))
  }

  /**
   * The solve: reads the base points, probes the chain by setting the original
   * mesh to each shifted copy and reading the base mesh back, restores the
   * original mesh, and returns the inverted frames with the base-point snapshot.
   */
  method Invert(orig: Mesh, chain: seq<Point> -> seq<Point>, correctivePoints: seq<Point>)
    returns (matrices: seq<Matrix>, snapshot: seq<Point>)
    requires Solvable(orig.points, chain, correctivePoints)
    modifies orig
    ensures orig.points == old(orig.points)
    ensures snapshot == chain(old(orig.points))
    ensures |matrices| == |snapshot|
    ensures forall i :: 0 <= i < |snapshot| ==>
      IsInverse(FrameAt(chain(Probe(old(orig.points), |snapshot|, X)),
                        chain(Probe(old(orig.points), |snapshot|, Y)),
                        chain(Probe(old(orig.points), |snapshot|, Z)),
                        snapshot, correctivePoints, i),
                matrices[i])
  {
    var basePoints := chain(orig.points);
    var pointCount := |basePoints|;
    var origPoints := orig.points;
    var xProbe, yProbe, zProbe := MakeProbes(origPoints, pointCount);
    orig.points := xProbe;
    var xPoints := chain(orig.points);
    orig.points := yProbe;
    var yPoints := chain(orig.points);
    orig.points := zProbe;
    var zPoints := chain(orig.points);
    orig.points := origPoints;
    matrices := BuildFrames(xPoints, yPoints, zPoints, basePoints, correctivePoints, pointCount);
    snapshot := basePoints;
  }

  /** Rows 0-2 of a frame are the images of unit offsets along x, y and z of the
      original mesh. */
  lemma FrameMapsUnitOffsets(xAxis: Point, yAxis: Point, zAxis: Point, corrective: Point)
    ensures VecMul(Point(1.0, 0.0, 0.0), Frame(xAxis, yAxis, zAxis, corrective)) == xAxis
    ensures VecMul(Point(0.0, 1.0, 0.0), Frame(xAxis, yAxis, zAxis, corrective)) == yAxis
    ensures VecMul(Point(0.0, 0.0, 1.0), Frame(xAxis, yAxis, zAxis, corrective)) == zAxis
  {
  }

  /**
   * The inverted frame undoes the frame on directions, both ways: the offset the
   * deformer derives from a sculpted delta, pushed through the frame, gives the
   * delta back, and a pre-chain offset pushed through the frame and then the
   * inverse comes back unchanged.
   */
  lemma FrameRoundTrip(xAxis: Point, yAxis: Point, zAxis: Point, corrective: Point, d: Point)
    requires Invertible(Frame(xAxis, yAxis, zAxis, corrective))
    ensures VecMul(VecMul(d, Inverse(Frame(xAxis, yAxis, zAxis, corrective))), Frame(xAxis, yAxis, zAxis, corrective)) == d
    ensures VecMul(VecMul(d, Frame(xAxis, yAxis, zAxis, corrective)), Inverse(Frame(xAxis, yAxis, zAxis, corrective))) == d
  {
    var f := Frame(xAxis, yAxis, zAxis, corrective);
    var n := Inverse(f);
    assert Col(f, 3) == AffineColumn;
    InverseIsAffine(f);
    DirectionRoundTrip(f, n, d);
    DirectionRoundTrip(n, f, d);
  }

  /**
   * With a chain that passes the original points through unchanged, every frame
   * is invertible and its inverse hands any sculpted delta back unchanged: the
   * stored matrices act as the identity on directions.
   */
  lemma IdentityChainFrames(origPoints: seq<Point>, corrective: seq<Point>, i: nat)
    requires |origPoints| <= |corrective| && i < |origPoints|
    ensures
      var n := |origPoints|;
      var f := FrameAt(Probe(origPoints, n, X), Probe(origPoints, n, Y), Probe(origPoints, n, Z), origPoints, corrective, i);
      Invertible(f) && forall d :: VecMul(d, Inverse(f)) == d
  {
    var n := |origPoints|;
    var f := FrameAt(Probe(origPoints, n, X), Probe(origPoints, n, Y), Probe(origPoints, n, Z), origPoints, corrective, i);
    assert f == Translation(corrective[i]);
    var t := corrective[i];
    TranslationInverse(t);
    TranslationInverse(Point(-t.x, -t.y, -t.z));
  }
}
