/**
 * The per-vertex correction the deformer applies on every evaluation, shared by
 * both revisions of the node: the delta between the corrective mesh and the
 * snapshot of the base mesh is pushed through the vertex's stored inverse frame
 * and added to the position being deformed, unless every component of the delta
 * is negligible.
 */
module DeltaEvaluation {
  import opened Geometry

  /** Deltas whose components are all below this in absolute value are skipped. */
  const Tolerance: real := 0.001

  function Abs(r: real): (a: real)
    ensures a >= 0.0 && (a == r || a == -r)
  {
    if r < 0.0 then -r else r
  }

  /** The skip test: every component strictly inside (-Tolerance, Tolerance). */
  predicate IsNegligible(delta: Point)
    ensures IsNegligible(delta) <==>
      && -Tolerance < delta.x < Tolerance
      && -Tolerance < delta.y < Tolerance
      && -Tolerance < delta.z < Tolerance
  {
    Abs(delta.x) < Tolerance && Abs(delta.y) < Tolerance && Abs(delta.z) < Tolerance
  }

  /** Every index the evaluation of n vertices reads exists: a corrective point
      and a snapshot point for each vertex, and a matrix for each vertex whose
      delta is not skipped. */
  ghost predicate Readable(n: nat, corrective: seq<Point>, snapshot: seq<Point>, matrices: seq<Matrix>)
  {
    && n <= |corrective|
    && n <= |snapshot|
    && forall i :: 0 <= i < n && !IsNegligible(Sub(corrective[i], snapshot[i])) ==> i < |matrices|
  }

  /** The new position of vertex i: unchanged when its delta is skipped, and
      otherwise moved by the delta pushed through the vertex's matrix. */
  function CorrectedVertex(position: Point, delta: Point, matrices: seq<Matrix>, i: nat): (r: Point)
    requires !IsNegligible(delta) ==> i < |matrices|
    ensures IsNegligible(delta) ==> r == position
    ensures !IsNegligible(delta) ==> Sub(r, position) == VecMul(delta, matrices[i])
  {
    if IsNegligible(delta) then position else Add(position, VecMul(delta, matrices[i]))
  }

  /** The positions after one evaluation over all vertices. */
  function Evaluate(positions: seq<Point>, corrective: seq<Point>, snapshot: seq<Point>, matrices: seq<Matrix>): (r: seq<Point>)
    requires Readable(|positions|, corrective, snapshot, matrices)
    ensures |r| == |positions|
  {
    seq(|positions|, i requires 0 <= i < |positions| =>
      CorrectedVertex(positions[i], Sub(corrective[i], snapshot[i]), matrices, i))
  }

  /** positions with vertex i replaced by its corrected position: one step of the loop. */
  function StepAt(positions: seq<Point>, corrective: seq<Point>, snapshot: seq<Point>, matrices: seq<Matrix>, i: nat): (r: seq<Point>)
    requires Readable(|positions|, corrective, snapshot, matrices) && i < |positions|
    ensures |r| == |positions|
    ensures forall k :: 0 <= k < |positions| && k != i ==> r[k] == positions[k]
  {
    positions[i := CorrectedVertex(positions[i], Sub(corrective[i], snapshot[i]), matrices, i)]
  }

  /** The positions once the loop has handled vertices 0..n-1: StepAt applied
      at 0, 1, ..., n-1 in turn. */
  function StepsUpTo(positions: seq<Point>, corrective: seq<Point>, snapshot: seq<Point>, matrices: seq<Matrix>, n: nat): (r: seq<Point>)
    requires Readable(|positions|, corrective, snapshot, matrices) && n <= |positions|
    ensures |r| == |positions|
  {
    if n == 0 then positions
    else StepAt(StepsUpTo(positions, corrective, snapshot, matrices, n - 1), corrective, snapshot, matrices, n - 1)
  }

  /** After n steps, vertices below n hold their evaluated positions and the
      others their old ones; after all of them the steps give Evaluate. */
  lemma {:induction false} StepsUpToPrefix(positions: seq<Point>, corrective: seq<Point>, snapshot: seq<Point>, matrices: seq<Matrix>, n: nat)
    requires Readable(|positions|, corrective, snapshot, matrices) && n <= |positions|
    ensures forall k :: 0 <= k < n ==>
      StepsUpTo(positions, corrective, snapshot, matrices, n)[k] == Evaluate(positions, corrective, snapshot, matrices)[k]
    ensures forall k :: n <= k < |positions| ==> StepsUpTo(positions, corrective, snapshot, matrices, n)[k] == positions[k]
    ensures n == |positions| ==> StepsUpTo(positions, corrective, snapshot, matrices, n) == Evaluate(positions, corrective, snapshot, matrices)
  {
    if n > 0 {
      StepsUpToPrefix(positions, corrective, snapshot, matrices, n - 1);
    }
  }

  /**
   * The iterator's loop: visits every vertex once, in index order, and writes
   * only the current vertex, so each iteration is one StepAt.
   */
  method ApplyDeltas(positions: array<Point>, corrective: seq<Point>, snapshot: seq<Point>, matrices: seq<Matrix>)
    requires Readable(positions.Length, corrective, snapshot, matrices)
    modifies positions
    ensures positions[..] == Evaluate(old(positions[..]), corrective, snapshot, matrices)
  {
    ghost var initial := positions[..];
    var index := 0;
    while index < positions.Length
      invariant 0 <= index <= positions.Length
      invariant positions[..] == StepsUpTo(initial, corrective, snapshot, matrices, index)
    {
      StepsUpToPrefix(initial, corrective, snapshot, matrices, index);
      var delta := Sub(corrective[index], snapshot[index]);
      if IsNegligible(delta) {
        index := index + 1;
        continue;
      }
      var offset := VecMul(delta, matrices[index]);
      positions[index] := Add(positions[index], offset);
      index := index + 1;
    }
    StepsUpToPrefix(initial, corrective, snapshot, matrices, index);
  }

  /** Skip rule: a vertex whose delta is negligible keeps its position, whatever
      its matrix is. */
  lemma NegligibleDeltaKeepsPosition(positions: seq<Point>, corrective: seq<Point>, snapshot: seq<Point>, matrices: seq<Matrix>, i: nat)
    requires Readable(|positions|, corrective, snapshot, matrices) && i < |positions|
    requires -Tolerance < corrective[i].x - snapshot[i].x < Tolerance
    requires -Tolerance < corrective[i].y - snapshot[i].y < Tolerance
    requires -Tolerance < corrective[i].z - snapshot[i].z < Tolerance
    ensures Evaluate(positions, corrective, snapshot, matrices)[i] == positions[i]
  {
  }

  /** Any other vertex moves by its delta times its matrix, so the sum of its
      old position and that offset. */
  lemma MovedVertex(positions: seq<Point>, corrective: seq<Point>, snapshot: seq<Point>, matrices: seq<Matrix>, i: nat)
    requires Readable(|positions|, corrective, snapshot, matrices) && i < |positions|
    requires !IsNegligible(Sub(corrective[i], snapshot[i]))
    ensures i < |matrices|
    ensures Sub(Evaluate(positions, corrective, snapshot, matrices)[i], positions[i])
         == VecMul(Sub(corrective[i], snapshot[i]), matrices[i])
  {
  }

  /** When the corrective mesh equals the snapshot, no vertex moves. */
  lemma {:induction false} UnsculptedIsNoOp(positions: seq<Point>, corrective: seq<Point>, snapshot: seq<Point>, matrices: seq<Matrix>)
    requires |positions| <= |corrective| && |positions| <= |snapshot|
    requires corrective[..|positions|] == snapshot[..|positions|]
    ensures Readable(|positions|, corrective, snapshot, matrices)
    ensures Evaluate(positions, corrective, snapshot, matrices) == positions
  {
    forall i | 0 <= i < |positions|
      ensures IsNegligible(Sub(corrective[i], snapshot[i]))
    {
      assert corrective[i] == corrective[..|positions|][i];
    }
  }

  /** The result at vertex i depends only on the inputs at vertex i. */
  lemma VertexIndependence(
    positions: seq<Point>, corrective: seq<Point>, snapshot: seq<Point>, matrices: seq<Matrix>,
    positions': seq<Point>, corrective': seq<Point>, snapshot': seq<Point>, matrices': seq<Matrix>, i: nat)
    requires Readable(|positions|, corrective, snapshot, matrices)
    requires Readable(|positions'|, corrective', snapshot', matrices')
    requires i < |positions| && i < |positions'|
    requires positions[i] == positions'[i] && corrective[i] == corrective'[i] && snapshot[i] == snapshot'[i]
    requires i < |matrices| && i < |matrices'| && matrices[i] == matrices'[i]
    ensures Evaluate(positions, corrective, snapshot, matrices)[i]
         == Evaluate(positions', corrective', snapshot', matrices')[i]
  {
  }

  /** Updating two vertices in either order gives the same positions, so the
      order in which the loop visits the vertices does not matter. */
  lemma StepsCommute(positions: seq<Point>, corrective: seq<Point>, snapshot: seq<Point>, matrices: seq<Matrix>, i: nat, j: nat)
    requires Readable(|positions|, corrective, snapshot, matrices) && i < |positions| && j < |positions|
    ensures
      var p := StepAt(positions, corrective, snapshot, matrices, i);
      var q := StepAt(positions, corrective, snapshot, matrices, j);
      StepAt(p, corrective, snapshot, matrices, j) == StepAt(q, corrective, snapshot, matrices, i)
  {
  }

  /** With identity frames every sculpted delta is added to the position
      unchanged. */
  lemma IdentityFramesAddDelta(positions: seq<Point>, corrective: seq<Point>, snapshot: seq<Point>, matrices: seq<Matrix>, i: nat)
    requires Readable(|positions|, corrective, snapshot, matrices) && i < |positions|
    requires i < |matrices| && matrices[i] == Identity
    ensures Evaluate(positions, corrective, snapshot, matrices)[i]
         == if IsNegligible(Sub(corrective[i], snapshot[i])) then positions[i]
            else Add(positions[i], Sub(corrective[i], snapshot[i]))
  {
  }

  /** With identity frames and a single sculpted vertex j, only vertex j moves,
      and it moves by exactly its delta. */
  lemma {:induction false} SingleSculptedVertex(positions: seq<Point>, corrective: seq<Point>, snapshot: seq<Point>, matrices: seq<Matrix>, j: nat)
    requires j < |positions| <= |corrective| && |positions| <= |snapshot| && |positions| <= |matrices|
    requires forall i :: 0 <= i < |positions| ==> matrices[i] == Identity
    requires forall i :: 0 <= i < |positions| && i != j ==> corrective[i] == snapshot[i]
    requires !IsNegligible(Sub(corrective[j], snapshot[j]))
    ensures Readable(|positions|, corrective, snapshot, matrices)
    ensures Evaluate(positions, corrective, snapshot, matrices)
         == positions[j := Add(positions[j], Sub(corrective[j], snapshot[j]))]
  {
    VecMulIdentity(Sub(corrective[j], snapshot[j]));
    forall i | 0 <= i < |positions| && i != j
      ensures IsNegligible(Sub(corrective[i], snapshot[i]))
    {
      assert Sub(corrective[i], snapshot[i]) == Point(0.0, 0.0, 0.0);
    }
  }

  /** The four-vertex example: identity frames, vertex 1 sculpted by 0.2 along x;
      only vertex 1 moves, by (0.2, 0, 0). */
  lemma FourVertexScenario(positions: seq<Point>, corrective: seq<Point>, snapshot: seq<Point>, matrices: seq<Matrix>)
    requires |positions| == 4
    requires snapshot == [Point(0.0, 0.0, 0.0), Point(1.0, 0.0, 0.0), Point(0.0, 1.0, 0.0), Point(0.0, 0.0, 1.0)]
    requires corrective == [Point(0.0, 0.0, 0.0), Point(1.2, 0.0, 0.0), Point(0.0, 1.0, 0.0), Point(0.0, 0.0, 1.0)]
    requires matrices == [Identity, Identity, Identity, Identity]
    ensures Readable(4, corrective, snapshot, matrices)
    ensures Evaluate(positions, corrective, snapshot, matrices)
         == [positions[0], Add(positions[1], Point(0.2, 0.0, 0.0)), positions[2], positions[3]]
  {
    var d := Sub(corrective[1], snapshot[1]);
    assert d == Point(0.2, 0.0, 0.0);
    NotNegligible(d);
    SingleSculptedVertex(positions, corrective, snapshot, matrices, 1);
    UpdateSecondOfFour(positions, Add(positions[1], d));
  }

  lemma UpdateSecondOfFour(s: seq<Point>, v: Point)
    requires |s| == 4
    ensures s[1 := v] == [s[0], v, s[2], s[3]]
  {
  }

  lemma NotNegligible(d: Point)
    requires d == Point(0.2, 0.0, 0.0)
    ensures !IsNegligible(d)
  {
  }
}
