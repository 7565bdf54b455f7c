/**
 * The first revision of the deformer node: an activate flag guards the whole
 * evaluation; on the first active evaluation the node copies one inversion
 * matrix per vertex of its input mesh and the deformed-points snapshot into its
 * own fields, and every active evaluation then moves each vertex by its delta
 * pushed through its matrix.
 */
module ShapeInverterNode {
  import opened Geometry
  import opened DeltaEvaluation

  class ShapeInverter {
    var initialized: bool
    var matrices: seq<Matrix>
    var deformedPoints: seq<Point>

    /** Before the first active evaluation nothing has been cached. */
    ghost predicate Valid()
      reads this
    {
      !initialized ==> matrices == [] && deformedPoints == []
    }

    constructor()
      ensures Valid()
      ensures !initialized && matrices == [] && deformedPoints == []
    {
      initialized := false;
      matrices := [];
      deformedPoints := [];
    }

    /**
     * One evaluation. matrixAttr and pointsAttr are the node's inversion-matrix
     * and deformed-points attributes, vertexCount the vertex count of the input
     * mesh, corrective the corrective mesh's points, and positions the points of
     * the geometry being deformed, visited in index order.
     */
    method Deform(activate: bool, matrixAttr: seq<Matrix>, pointsAttr: seq<Point>, vertexCount: nat,
                  corrective: seq<Point>, positions: array<Point>)
      requires Valid()
      requires activate && !initialized ==> vertexCount <= |matrixAttr|
      requires activate && !initialized && vertexCount <= |matrixAttr| ==>
        Readable(positions.Length, corrective, pointsAttr, matrixAttr[..vertexCount])
      requires activate && initialized ==> Readable(positions.Length, corrective, deformedPoints, matrices)
      modifies this, positions
      ensures Valid()
      ensures !activate ==> unchanged(this) && unchanged(positions)
      ensures initialized == (old(initialized) || activate)
      ensures old(initialized) ==> matrices == old(matrices) && deformedPoints == old(deformedPoints)
      ensures activate && !old(initialized) ==> matrices == matrixAttr[..vertexCount] && deformedPoints == pointsAttr
      ensures activate ==> Readable(positions.Length, corrective, deformedPoints, matrices)
      ensures activate ==> positions[..] == Evaluate(old(positions[..]), corrective, deformedPoints, matrices)
    {
      if !activate {
        return;
      }
      if !initialized {
        for i := 0 to vertexCount
          modifies this
          invariant matrices == matrixAttr[..i]
          invariant deformedPoints == [] && !initialized
        {
          matrices := matrices + [matrixAttr[i]];
        }
        deformedPoints := pointsAttr;
        initialized := true;
      }
      ApplyDeltas(positions, corrective, deformedPoints, matrices);
    }
  }
}
