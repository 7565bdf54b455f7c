/**
 * The later revision of the deformer node: there is no activate flag; instead
 * the evaluation does nothing while the corrective mesh is not connected, and
 * stays uninitialised while the inversion-matrix attribute holds no element, so
 * that a later evaluation can still pick the data up.
 */
module ShapeInverterPlugin {
  import opened Wrappers
  import opened Geometry
  import opened DeltaEvaluation

  class ShapeInverter {
    var initialized: bool
    var matrices: seq<Matrix>
    var deformedPoints: seq<Point>

    /** Before the first successful initialisation nothing has been cached. */
    ghost predicate Valid()
      reads this
    {
      !initialized ==> matrices == [] && deformedPoints == []
    }

    constructor()
      ensures Valid()
      ensures !initialized && matrices == [] && deformedPoints == []
    {
      initialized := false;
      matrices := [];
      deformedPoints := [];
    }

    /**
     * One evaluation. corrective is the corrective mesh's points, None when the
     * mesh input is not connected; matrixAttr holds the elements of the
     * inversion-matrix attribute in order, pointsAttr the deformed-points
     * attribute, and positions the points of the geometry being deformed,
     * visited in index order.
     */
    method Deform(corrective: Option<seq<Point>>, matrixAttr: seq<Matrix>, pointsAttr: seq<Point>, positions: array<Point>)
      requires Valid()
      requires corrective.Some? && !initialized && matrixAttr != [] ==>
        Readable(positions.Length, corrective.value, pointsAttr, matrixAttr)
      requires corrective.Some? && initialized ==>
        Readable(positions.Length, corrective.value, deformedPoints, matrices)
      modifies this, positions
      ensures Valid()
      ensures corrective.None? ==> unchanged(this) && unchanged(positions)
      ensures !old(initialized) && matrixAttr == [] ==> unchanged(this) && unchanged(positions)
      ensures initialized == (old(initialized) || (corrective.Some? && matrixAttr != []))
      ensures old(initialized) ==> matrices == old(matrices) && deformedPoints == old(deformedPoints)
      ensures !old(initialized) && initialized ==> matrices == matrixAttr && deformedPoints == pointsAttr
      ensures corrective.Some? && initialized ==> Readable(positions.Length, corrective.value, deformedPoints, matrices)
      ensures corrective.Some? && initialized ==>
        positions[..] == Evaluate(old(positions[..]), corrective.value, deformedPoints, matrices)
    {
      if corrective.None? {
        return;
      }
      var correctivePoints := corrective.value;
      if !initialized {
        var matrixCount := |matrixAttr|;
        if matrixCount == 0 {
          return;
        }
        for i := 0 to matrixCount
          modifies this
          invariant matrices == matrixAttr[..i]
          invariant deformedPoints == [] && !initialized
        {
          matrices := matrices + [matrixAttr[i]];
        }
        deformedPoints := pointsAttr;
        initialized := true;
      }
      ApplyDeltas(positions, correctivePoints, deformedPoints, matrices);
    }
  }
}
