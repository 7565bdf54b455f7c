# cvShapeInverter core, modelled in Dafny

cvShapeInverter inverts a sculpted corrective shape back through a mesh's
deformation chain, so that the correction can be applied as a blend shape at
the front of the chain. Two pieces of it carry logic and are modelled here.

- **The authoring step** (`invert` in `scripts/cvshapeinverter.py`). It makes
  three copies of the original (intermediate) mesh's points, each shifted by
  1.0 along x, y or z. It pushes each copy through the deformation chain and
  reads the base mesh back. For every vertex it assembles a 4x4 frame: rows
  0-2 are the three responses minus the base point, row 3 is the corrective
  point, and column 3 keeps the identity's (0, 0, 0, 1). It inverts each frame
  and stores the inverses with a snapshot of the base points. Module
  `FrameBuilder` (`frame_builder.dfy`).
- **The deformer node**, in two revisions (`plug-ins/cvShapeInverter.py` and
  `plug-ins/cvshapeinverter_plugin.py`). The node keeps an `initialized` flag,
  a matrix list and a snapshot of deformed points. It fills the list and the
  snapshot once, lazily. On every evaluation it moves each vertex by its delta
  (corrective point minus snapshot point) times its stored matrix. A vertex is
  skipped when every component of its delta is below 0.001 in absolute value.
  Modules `ShapeInverterNode` (`shape_inverter_node.dfy`) and
  `ShapeInverterPlugin` (`shape_inverter_plugin.dfy`). Both share the
  per-vertex loop in `DeltaEvaluation` (`delta_evaluation.dfy`).

`Geometry` (`geometry.dfy`) holds points, 4x4 matrices and the product of a
direction with a matrix. The product treats the direction as the row
(x, y, z, 0), so a matrix's translation row has no effect on it. `Geometry`
also has the matrix product and the inverse. `Inverse` is the exact inverse:
it picks the unique two-sided inverse by a specification (a let-such-that over
all matrices), and its uniqueness is proved from associativity.
`Invertible(m)` says such an inverse exists. Because the chosen matrix has no
bound Dafny can enumerate, `Inverse` and the methods that call it
(`BuildFrames`, `Invert`) verify but do not compile.

How the host is represented:

- The deformation chain is a function parameter. It maps the original mesh's
  points to the base mesh's points, so reading the base mesh is `chain(orig.points)`.
- The original mesh is a `Mesh` object whose `points` the solve overwrites and
  then restores.
- The node's attributes are plain parameters of `Deform`: the inversion-matrix
  array as a dense sequence, the deformed-points array, the activate flag, and
  the corrective mesh's points. In the later revision the corrective mesh is an
  `Option`, where `None` means the mesh is not connected.
- The geometry iterator is an array of positions, visited in index order and
  updated in place.

Behaviour of the code that the model keeps as written:

- The code never checks whether a frame is singular. `Invert` and
  `BuildFrames` require every frame to be invertible instead.
- The code never compares the lengths of the corrective, snapshot and matrix
  arrays with the vertex count. Only an index past the end fails, as a Python
  `IndexError`. `Readable` states exactly the indices the loop reads, and the
  methods require it. Longer arrays are accepted, as in the code.
- The later revision stays uninitialised only when the matrix array is empty,
  and initialises otherwise. It does not also check that the length matches
  the mesh.
- The first revision has no guard for an unconnected corrective mesh. The
  later one has no activate flag.

## Model

| member | source | states |
|---|---|---|
| Geometry.Sub | plug-ins/cvShapeInverter.py:61 | the difference of two points is the direction that carries the second onto the first |
| Geometry.AddSubRoundTrip | plug-ins/cvShapeInverter.py:71 | moving a position along a direction and taking the difference from the start gives the direction back |
| Geometry.VecMul | plug-ins/cvShapeInverter.py:70 | a delta times a matrix is the sum of rows 0-2's first three entries weighted by the delta's x, y, z: row 3 (the translation) and column 3 play no part |
| Geometry.VecMulIdentity | plug-ins/cvShapeInverter.py:70 | a delta times the identity matrix is the delta itself |
| Geometry.MulIdentity | scripts/cvshapeinverter.py:92 | the identity matrix is neutral on both sides of the product |
| Geometry.MulAssoc | scripts/cvshapeinverter.py:97 | the 4x4 matrix product is associative |
| Geometry.InverseUnique | scripts/cvshapeinverter.py:97 | a matrix has at most one two-sided inverse |
| Geometry.Inverse | scripts/cvshapeinverter.py:97 | the inverse r of an invertible m satisfies m * r == I and r * m == I |
| Geometry.InverseIsAffine | scripts/cvshapeinverter.py:92-97 | when a matrix's column 3 is (0, 0, 0, 1), its inverse's column 3 is also (0, 0, 0, 1) |
| Geometry.DirectionRoundTrip | plug-ins/cvShapeInverter.py:70 | a direction multiplied by an affine matrix and then by its right inverse comes back unchanged |
| Geometry.TranslationsCompose | scripts/cvshapeinverter.py:92-96 | translating by t and then by s is translating by t + s |
| Geometry.TranslationInverse | scripts/cvshapeinverter.py:97 | a translation is invertible; its inverse is the opposite translation; it leaves directions unchanged |
| DeltaEvaluation.Abs | plug-ins/cvShapeInverter.py:63-65 | the absolute value is non-negative and equals r or -r |
| DeltaEvaluation.IsNegligible | plug-ins/cvShapeInverter.py:63-65 | a delta is skipped exactly when each of its components lies strictly between -0.001 and 0.001 |
| DeltaEvaluation.CorrectedVertex | plug-ins/cvShapeInverter.py:61-72 | a skipped vertex keeps its position; any other moves by its delta times its matrix |
| DeltaEvaluation.Evaluate | plug-ins/cvShapeInverter.py:59-74 | one evaluation yields exactly one position per vertex; the lemmas below say what each one is |
| DeltaEvaluation.StepAt | plug-ins/cvShapeInverter.py:70-72 | correcting vertex i leaves every other vertex's position as it was |
| DeltaEvaluation.StepsUpToPrefix | plug-ins/cvShapeInverter.py:59-74 | after the steps at vertices 0..n-1, those vertices hold their evaluated positions and the rest their old ones; all steps together give Evaluate |
| DeltaEvaluation.ApplyDeltas | plug-ins/cvShapeInverter.py:59-74 | each iteration of the loop is one StepAt at the current index, in index order, and the loop leaves the positions equal to Evaluate of the old positions |
| DeltaEvaluation.NegligibleDeltaKeepsPosition | plug-ins/cvShapeInverter.py:61-67 | skip rule: when each delta component lies strictly between -0.001 and 0.001, the vertex keeps its position whatever its matrix |
| DeltaEvaluation.MovedVertex | plug-ins/cvShapeInverter.py:70-72 | any other vertex has a matrix, and its new position minus its old one is its delta times that matrix |
| DeltaEvaluation.UnsculptedIsNoOp | plug-ins/cvShapeInverter.py:59-74 | when the corrective points equal the snapshot, the evaluation is readable and changes no position |
| DeltaEvaluation.VertexIndependence | plug-ins/cvShapeInverter.py:59-74 | the result at vertex i depends only on the position, corrective point, snapshot point and matrix at i |
| DeltaEvaluation.StepsCommute | plug-ins/cvShapeInverter.py:59-74 | correcting vertex i then j gives the same positions as j then i, so visiting order does not matter |
| DeltaEvaluation.IdentityFramesAddDelta | plug-ins/cvShapeInverter.py:61-72 | with an identity matrix at vertex i, a non-skipped vertex moves by exactly its delta |
| DeltaEvaluation.SingleSculptedVertex | plug-ins/cvShapeInverter.py:59-74 | with identity matrices and one sculpted vertex j, the result is the old positions with only j moved, by its delta |
| DeltaEvaluation.FourVertexScenario | plug-ins/cvShapeInverter.py:59-74 | with four vertices, identity matrices and vertex 1 sculpted 0.2 along x, only vertex 1 moves, by (0.2, 0, 0) |
| FrameBuilder.ResolveMeshes | scripts/cvshapeinverter.py:32-37 | fails with "Select base then corrective" exactly when the two names are not both given and the selection does not hold two items; otherwise gives the given names, else the selection in order |
| FrameBuilder.Probe | scripts/cvshapeinverter.py:51-53 | each probe copy has as many points as the original mesh |
| FrameBuilder.MakeProbes | scripts/cvshapeinverter.py:50-59 | three copies of the original points of the same length; below pointCount each copy has x, y or z increased by 1.0 and the other two coordinates unchanged; above it, the original points |
| FrameBuilder.SetMatrixCell | scripts/cvshapeinverter.py:204-212 | exactly cell (row, column) becomes value; every other cell keeps its value |
| FrameBuilder.SetMatrixRow | scripts/cvshapeinverter.py:192-201 | columns 0-2 of the row take the vector's x, y, z; column 3 of the row and all other rows keep their values |
| FrameBuilder.AssembleFrame | scripts/cvshapeinverter.py:92-96 | rows 0-2 are the three axis responses with 0 in column 3, row 3 is the corrective point with 1, and so column 3 is (0, 0, 0, 1) |
| FrameBuilder.BuildFrames | scripts/cvshapeinverter.py:91-101 | exactly pointCount matrices, and the one at index i is the inverse of vertex i's assembled frame |
| FrameBuilder.Invert | scripts/cvshapeinverter.py:39-107 | the original mesh's points end as they began; the snapshot is the base points read before probing; one matrix per base point, each the inverse of that vertex's frame built from the probed responses |
| FrameBuilder.FrameMapsUnitOffsets | scripts/cvshapeinverter.py:93-95 | a frame maps unit offsets along x, y and z of the original mesh to its rows 0, 1 and 2 |
| FrameBuilder.FrameRoundTrip | scripts/cvshapeinverter.py:91-97 | the offset the deformer derives from a delta, pushed through the frame, gives the delta back, and the same holds in the other order |
| FrameBuilder.IdentityChainFrames | scripts/cvshapeinverter.py:51-97 | with a chain that passes points through unchanged, every frame is invertible and its inverse returns every delta unchanged |
| ShapeInverterNode.ShapeInverter.constructor | plug-ins/cvShapeInverter.py:18-22 | a new node is uninitialised, with no matrices and an empty snapshot |
| ShapeInverterNode.ShapeInverter.Deform | plug-ins/cvShapeInverter.py:25-77 | see the bullet list after this table |
| ShapeInverterPlugin.ShapeInverter.constructor | plug-ins/cvshapeinverter_plugin.py:14-18 | a new node is uninitialised, with no matrices and an empty snapshot |
| ShapeInverterPlugin.ShapeInverter.Deform | plug-ins/cvshapeinverter_plugin.py:20-61 | see the bullet list after this table |

`ShapeInverterNode.ShapeInverter.Deform` (the first revision):

- With activate false, the node and the positions are unchanged.
- `initialized` becomes `old(initialized) || activate`.
- On the first active call, the matrices become the first `vertexCount`
  elements of the attribute, in index order, and the snapshot is copied in.
- Once initialised, the matrices and the snapshot never change.
- On every active call, the positions become `Evaluate` of the old positions.

`ShapeInverterPlugin.ShapeInverter.Deform` (the later revision):

- With no corrective mesh, the node and the positions are unchanged.
- While uninitialised with an empty matrix array, the node and the positions
  are unchanged, so a later call can still initialise.
- `initialized` becomes true exactly when a corrective mesh is present and the
  matrix array is non-empty. It never reverts.
- On initialisation, the matrices become the whole array in element order, and
  the snapshot is copied in.
- Once initialised, the matrices and the snapshot never change.
- When it runs, the positions become `Evaluate` of the old positions.

## Left out

- Host calls are left out: scene queries, undo chunks, duplicating the mesh and
  naming it `<corrective>_inverted`, deleting its intermediate shapes and
  giving it the original points, unlocking
  attributes, creating and connecting the deformer, and `get_shape`,
  `get_mobject`, `get_dag_path`, `get_points` and `set_points`. Point reads and
  writes are sequence or field state. The mesh lookup's "no intermediate shape"
  error is not modelled.
- Plug-in registration and the attribute schema (`creator`, `initialize`,
  `initializePlugin`, `uninitializePlugin`, and the API-version choice of the
  output attribute) are left out. They register the node and hold no logic.
- ShapeInverterNode.ShapeInverter.Deform: requires the matrix attribute to hold
  at least `vertexCount` elements. The code's fallback, which adds a missing
  element through the array builder (`jumpToElement`,
  plug-ins/cvShapeInverter.py:85-93), is not modelled. The attribute is a dense
  sequence. The corrective mesh is always present (`corrective: seq<Point>`):
  the code initialises before it reads the corrective mesh
  (plug-ins/cvShapeInverter.py:31-56), so with no mesh connected it initialises
  and then fails. That failure after initialisation is not modelled.
- FrameBuilder.Invert: requires (through `Solvable`) at least as many original
  points, corrective points and points in each probed response as the base
  mesh has. The code indexes all of them below `point_count`
  (scripts/cvshapeinverter.py:56-59, 93-96) without checking any length, so a
  shorter mesh makes it read past the end. Those error paths are not modelled.
- The numerical inversion and floating-point rounding are left out.
  Coordinates are exact reals, and `Inverse` is the exact inverse.
- The geometry iterator is assumed to visit every vertex exactly once, with
  indices 0 to n-1 in order. Deformer membership sets, and the
  `localToWorldMatrix` and `geomIndex` arguments other than the vertex count
  they give, are not modelled.
- The source has no concurrency, and none is modelled.
