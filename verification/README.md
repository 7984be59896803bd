# Trajectory scoring and release gates: models and proofs

This project models the Python scripts that score SLAM trajectories and decide releases, and proves what
their results mean. It has four parts.

**Trajectory association and scoring.** `SparseAssociation` is the greedy one-to-one matcher of checkpoint
stamps and the loader whose strictly increasing stamps it relies on. `ApeScoring` is nearest-neighbour and
interpolated association, first-pose alignment and the error statistics. `StampSearch` is the bisection they
use and what its answers are worth; `Ordering`, `Statistics` and `Sequences` hold the sorts and the list facts.

**Rigid motion.** `RigidMotion` is the quaternion and SE(3) algebra, `LoopResiduals` the residuals of loop
edges and their report, `LoopReport` what its rows say, `FrameOffset` the local-frame offset of a trajectory,
`Densify` the map-frame orientations at the frontend's rate, and `Interpolation` what lies between two samples.

**Text forms.** `Patch` is the git patch reader, `PatchRoundTrip` the printer it reads and the exact condition
under which everything comes back, `ConsumerCounts` the prediction of a file's contents from a patch, and
`EdgeReplay` the edge sets of replay runs with their canonical payload.
`Text` holds `splitlines`, `join` and `count`.

**Decisions.** `ReleaseReadiness`, `ReleaseProfiles`, `ReviewRouting` and `MapRegression` are gates over lists
of any length; `ReadinessAdvice` tells the advice of the first from what its inspections were given.
`PublishStep` and `PublishProtocol` are the publish step of the onboarding fixture, first alone and then
interleaved with other processes.

Loops over changing variables are methods, each proved against a function or a predicate; what the scripts
promise is then proved about that function or predicate. Constant tables of the scripts (lanes, slices,
distributions, outputs) are parameters of any length. Coordinates and stamps are exact reals. Square root,
sine, cosine and arc cosine are parameters; `Densify.TrigLaws` lists the identities used of them. Rotation
matrices need no square root: dividing a quaternion by its norm and forming the matrix is the same as
forming it with the factor 2 / |q|^2.

Where the code does something other than what its documentation or its use suggests:

- Added patch lines that begin with `++` and deleted lines that begin with `--` are taken for file markers
  and lost; a changed line with a form feed or another character at which `splitlines` breaks comes apart. The
  round trip holds exactly without these (`PatchRoundTrip.RoundTripExactly`). A replacement can therefore pass
  its check while the old name is still in the file (`ConsumerCounts.PassedWithTheOldNameLeft`,
  `ConsumerCounts.PassedWithAFormFeed`); `ConsumerCounts.PassedReplacementExactly` says when it is gone.
- A valid path containing ` b/` is refused as a rename (`PatchRoundTrip.HeaderRoundTrip`,
  `PatchRoundTrip.SeparatorInPathIsRefused`).
- `analyze_offline_reference` searches the reference stamps by bisection, and nothing sorts them. On unsorted
  stamps it can miss a reference with exactly the stamp asked for and report a failure
  (`LoopResiduals.UnsortedReferenceIsMissed`); a pass is never wrong (`LoopResiduals.OfflinePassIsSound`).
  `StampSearch.AllAnsweredExactly` says for which sequences every query is answered with a nearest stamp, and
  exactly for these the verdict is always right (`LoopResiduals.OfflineVerdictExactly`).
- The docstring of `densify_orientations` says that the result equals the keyframes at their stamps. With at
  least two frontend rows inside the keyframes' span, and all stamps in non-decreasing order, the orientations
  do, up to sign, exactly when frontend rows sharing a keyframe's stamp agree and keyframes sharing a frontend
  row's stamp agree; with fewer rows inside the keyframes are returned, and they do exactly when keyframes
  sharing a stamp agree (`Densify.DenseReproducesKeyframes`). A repeated stamp on either side can break it
  (`Densify.RepeatedStampBreaksIt`, `Densify.RepeatedKeyframeBreaksIt`). Positions stay the frontend's
  (`Densify.DenseKeepsRows`).
- `_quat_rotate` does not normalise, unlike the two matrix forms (`FrameOffset.RotationsAgreeExactlyWhenUnit`).
- The publish step can be made to remove a foreign entry, or to fail in its clean-up, by a process that replaces
  an output other than the last between its link and its identification, or touches an entry between its
  comparison and its removal, and by nothing else (`PublishProtocol.HarmExactly`). Even then it overwrites
  nothing, ends, and on success has linked whatever nobody touched (`PublishProtocol.PublisherOverwritesNothing`,
  `PublishProtocol.RunsAreShort`, `PublishProtocol.PublishedMeansLinked`).
- The map comparison takes any allowance. The bounds that passing chains give for coverage, valid fraction and
  entropy hold exactly up to p = 100 (`MapRegression.BoundsHoldExactly`).

## Model

| member | source | states |
|---|---|---|
| `SparseAssociation.LoadTum` | scripts/analyze_sparse_checkpoint_errors.py:42-58 | a file loads exactly when every line is well formed, there is a row and no stamp repeats; the rows are then the file's, by strictly increasing stamp; otherwise the first bad line is named |
| `SparseAssociation.RowsFollowLines` | scripts/analyze_sparse_checkpoint_errors.py:42-50 | the rows are the lines that are not skipped, in file order, each holding the first four numbers of its line as stamp and position |
| `SparseAssociation.SortRows` | scripts/analyze_sparse_checkpoint_errors.py:51-58 | sorting by stamp and refusing a non-positive gap refuses exactly the lists with a repeated stamp |
| `SparseAssociation.SortedGapsMeanDistinct` | scripts/analyze_sparse_checkpoint_errors.py:55-57 | positive gaps between sorted neighbours mean pairwise distinct stamps in file order |
| `SparseAssociation.GreedyChoiceIsUnique` | scripts/analyze_sparse_checkpoint_errors.py:72-80 | at most one subset of the candidates is one-to-one with every rejected candidate blocked by an accepted, earlier one |
| `SparseAssociation.GreedyChoiceIsMaximal` | scripts/analyze_sparse_checkpoint_errors.py:75-80 | no rejected candidate can be added without using an estimate or a reference twice |
| `SparseAssociation.RejectedByANearerPair` | scripts/analyze_sparse_checkpoint_errors.py:72-80 | a rejected candidate shares its estimate or its reference with an accepted pair nearer in time, or equally near with an earlier estimate, or then an earlier reference |
| `SparseAssociation.GreedyChoiceNeverCrosses` | scripts/analyze_sparse_checkpoint_errors.py:55-86 | with strictly increasing stamps a later estimate is never matched to an earlier reference |
| `SparseAssociation.Candidates` | scripts/analyze_sparse_checkpoint_errors.py:64-71 | the candidates are exactly the pairs of an estimate with a neighbour of its insertion point within the tolerance |
| `SparseAssociation.TakeGreedily` | scripts/analyze_sparse_checkpoint_errors.py:72-80 | the pass over the sorted candidates accepts a greedy choice, each pair once |
| `SparseAssociation.Associate` | scripts/analyze_sparse_checkpoint_errors.py:61-86 | the returned pairs are the greedy choice among the candidates, and both index lists strictly increase |
| `SparseAssociation.AssociationIsDetermined` | scripts/analyze_sparse_checkpoint_errors.py:72-86 | the three returned lists are fixed by the candidate set, whatever order generated it |
| `StampSearch.AllAnsweredExactly` | scripts/analyze_pose_graph_loop_residuals.py:136-142 | every query whatever is answered with a nearest stamp exactly when each stamp's own query finds it behind the next lower one and the last stamp is the greatest |
| `StampSearch.SearchableMeansSorted` | scripts/analyze_pose_graph_loop_residuals.py:136-142 | for stamps that never repeat this means exactly that they are sorted |
| `StampSearch.SortedIsSearchable` | scripts/analyze_sparse_checkpoint_errors.py:55-67 | on sorted stamps, repeated or not, every query is answered with a nearest one |
| `StampSearch.UnsortedButSearchable` | scripts/analyze_pose_graph_loop_residuals.py:136-142 | with repeated stamps an unsorted sequence may still answer every query |
| `StampSearch.InsertionMonotone` | scripts/analyze_pose_graph_loop_residuals.py:136 | bisection never puts a later stamp at an earlier place, sorted or not |
| `StampSearch.NearestPrefersBefore` | scripts/analyze_pose_graph_loop_residuals.py:138-140 | on sorted stamps, of several nearest ones the last one before the query is taken, and without such the first one at or after it |
| `Ordering.SortSorts` | scripts/analyze_sparse_checkpoint_errors.py:55 | sorting keeps the contents and orders them |
| `EdgeReplay.SortedIsTheSortOfAnyListing` | scripts/aggregate_backend_replay.py:70-72 | sorting any enumeration of an edge set gives the one list the payload prints |
| `RigidMotion.RotationHomomorphism` | scripts/check_map_gravity_alignment.py:79-88 | the matrix of a quaternion product is the product of the matrices |
| `RigidMotion.NormMultiplies` | scripts/check_map_gravity_alignment.py:79-88 | the squared norm of a quaternion product is the product of the squared norms |
| `RigidMotion.RotationIsOrthonormal` | scripts/analyze_pose_graph_loop_residuals.py:16-27 | the matrix of every nonzero quaternion has the transpose as its inverse on both sides |
| `RigidMotion.TraceIsCosine` | scripts/analyze_pose_graph_loop_residuals.py:39-41 | (trace - 1) / 2 is 2w^2 - 1 for the unit quaternion and lies in [-1, 1] |
| `RigidMotion.ConjugateTransposes` | scripts/analyze_pose_graph_loop_residuals.py:16-27 | the conjugate's matrix is the transpose |
| `RigidMotion.ConjugateCancels` | scripts/check_map_gravity_alignment.py:101-102 | a quaternion times its conjugate is its squared norm |
| `RigidMotion.InverseInverts` | scripts/analyze_pose_graph_loop_residuals.py:171-172 | the rigid inverse is two-sided |
| `RigidMotion.InverseIsUnique` | scripts/analyze_pose_graph_loop_residuals.py:171-172 | no other pose inverts it, so it is the matrix inverse the script computes |
| `RigidMotion.PosesCompose` | scripts/analyze_pose_graph_loop_residuals.py:171-172 | products and inverses of rigid poses are rigid, and the inverse of a product is the reversed product of inverses |
| `RigidMotion.ComposeAssociative` | scripts/analyze_pose_graph_loop_residuals.py:171-172 | composing poses is associative |
| `RigidMotion.RotationKeepsDot` | scripts/analyze_pose_graph_loop_residuals.py:177 | rotations keep dot products, hence lengths and distances |
| `LoopResiduals.PoseMatrixIsRigid` | scripts/analyze_pose_graph_loop_residuals.py:30-36 | a pose is read exactly from seven or more values with a nonzero quaternion, and it is rigid |
| `LoopResiduals.PredictedIsGaugeFree` | scripts/analyze_pose_graph_loop_residuals.py:171 | relative poses do not change when both vertices are moved by one rigid transform |
| `LoopResiduals.TranslationResidualIsADistance` | scripts/analyze_pose_graph_loop_residuals.py:171-177 | the translation residual is the distance between predicted and measured relative translation |
| `LoopResiduals.ZeroResidualMeansSatisfied` | scripts/analyze_pose_graph_loop_residuals.py:171-178 | both residuals vanish exactly when the second vertex is the first composed with the measurement |
| `LoopResiduals.EdgeCosineIsExact` | scripts/analyze_pose_graph_loop_residuals.py:39-41 | the error of an edge is a quaternion rotation, its cosine is 2w^2 - 1, and the clip never changes it |
| `LoopResiduals.AnalyzeEdges` | scripts/analyze_pose_graph_loop_residuals.py:155-205 | the loop over the edges yields the report the next lemmas are about: rows in file order, counts, means, maxima, status |
| `LoopReport.RowsAreDetermined` | scripts/analyze_pose_graph_loop_residuals.py:155-205 | one row for each loop edge with both vertices, in file order, the other loop edges counted as missing; each row holds the distance between the second vertex seen from the first and the measured translation, the angle between the two relative rotations, the distance of the vertices and the length of the measurement |
| `LoopReport.ZeroRowMeansSatisfied` | scripts/analyze_pose_graph_loop_residuals.py:171-178 | a row is zero in both residuals exactly when the second vertex is the first one moved by the measurement |
| `LoopReport.SummariesAre` | scripts/analyze_pose_graph_loop_residuals.py:190-204 | the summaries are the mean, and the maximum attained, of the residuals in the rows, and absent exactly without rows |
| `LoopResiduals.PassMeansEveryLoopScored` | scripts/analyze_pose_graph_loop_residuals.py:166-170 | PASS exactly when there is a non-adjacent edge and every such edge has both vertices |
| `LoopResiduals.ReportIsGaugeFree` | scripts/analyze_pose_graph_loop_residuals.py:155-205 | moving every vertex by one rigid transform leaves the whole report unchanged |
| `LoopResiduals.RowsAreAtMostLoops` | scripts/analyze_pose_graph_loop_residuals.py:169-170 | rows and missing counts add up to the loop edges, and none is missing exactly when every loop edge has both vertices |
| `LoopResiduals.CollectReferenceVertices` | scripts/analyze_pose_graph_loop_residuals.py:129-145 | the reference poses found by bisection for the set of endpoints do not depend on its order |
| `LoopResiduals.ReferenceVerticesAreSound` | scripts/analyze_pose_graph_loop_residuals.py:131-145 | for any order of the references, a pose is given only to an endpoint in range and its stamp lies within the bound |
| `LoopResiduals.ReferenceVerticesAreNearest` | scripts/analyze_pose_graph_loop_residuals.py:131-145 | over searchable references an endpoint gets a pose exactly when a reference stamp lies within the bound, and then one no other reference stamp beats |
| `LoopResiduals.AnalyzeOfflineReference` | scripts/analyze_pose_graph_loop_residuals.py:120-152 | the offline report is the report of all edges against the collected reference poses |
| `LoopResiduals.OfflinePassIsSound` | scripts/analyze_pose_graph_loop_residuals.py:120-152 | a passing offline report, for any order of the references, has an edge and a reference within the bound at both ends of every edge |
| `LoopResiduals.OfflinePassMeansEveryEndReferenced` | scripts/analyze_pose_graph_loop_residuals.py:120-152 | over searchable references it passes exactly then |
| `LoopResiduals.OfflineVerdictExactly` | scripts/analyze_pose_graph_loop_residuals.py:120-152 | the verdict is right for all indexed poses, edges and bounds exactly when the references are searchable |
| `LoopResiduals.UnsortedReferenceIsMissed` | scripts/analyze_pose_graph_loop_residuals.py:132-145 | a concrete unsorted reference file: every end has an exact reference and the report fails |
| `FrameOffset.RotationsAgree` | scripts/check_map_gravity_alignment.py:52-57 | on unit quaternions the cross-product rotation equals the matrix rotation on every vector |
| `FrameOffset.RotationsAgreeExactlyWhenUnit` | scripts/check_map_gravity_alignment.py:52-57 | they agree on all vectors exactly for unit quaternions and those without a vector part |
| `FrameOffset.OffsetTrajectory` | scripts/apply_tum_frame_offset.py:46-66 | one output line per pose, each moved by its own rotated offset; refused exactly when a line is invalid, naming the first |
| `FrameOffset.PositionLostExactly` | scripts/apply_tum_frame_offset.py:11-22 | a written position is NaN exactly for the zero quaternion |
| `FrameOffset.WrittenLinesAreMoved` | scripts/apply_tum_frame_offset.py:46-66 | the written lines are one for each pose read, in file order, with its stamp and orientation; for a nonzero quaternion the position is that of the pose followed by the offset in its own frame, exactly the offset's length away |
| `FrameOffset.StepInOwnFrameIsTheOffset` | scripts/apply_tum_frame_offset.py:11-22 | turned back into the pose's frame, the step from the position read to the one written is the offset |
| `FrameOffset.OffsetMovesByItsLength` | scripts/apply_tum_frame_offset.py:11-22 | a pose moves by exactly the length of the offset and keeps stamp and orientation |
| `FrameOffset.OffsetsAdd` | scripts/apply_tum_frame_offset.py:56-62 | offsets compose additively and are undone by their negatives |
| `FrameOffset.OffsetCommutesWithTheMapFrame` | scripts/apply_tum_frame_offset.py:56-62 | the offset is a translation in the pose's own frame, so it commutes with any change of the map frame |
| `Densify.QuatMulAssociative` | scripts/check_map_gravity_alignment.py:79-88 | the Hamilton product is associative |
| `Densify.BlendIsUnit` | scripts/check_map_gravity_alignment.py:60-76 | blending unit quaternions gives a unit quaternion in both branches, at any fraction |
| `Densify.SlerpAtSample` | scripts/check_map_gravity_alignment.py:62-76 | at a sample's stamp the result is the first sample with that stamp, negated exactly when it lies on the far side of its predecessor |
| `Interpolation.FractionIsTheShare` | scripts/check_map_gravity_alignment.py:64-66 | the fraction is the share of the time between the two stamps, and lies in [0, 1] between them |
| `Interpolation.BlendSharesTheAngle` | scripts/check_map_gravity_alignment.py:67-76 | outside the small-angle branch the angles of the blend to its two ends are f and 1 - f times the angle between them |
| `Interpolation.SmallBlendIsTheChord` | scripts/check_map_gravity_alignment.py:71-76 | in the small-angle branch the blend is the unit quaternion along the chord |
| `Interpolation.SlerpSharesTheAngle` | scripts/check_map_gravity_alignment.py:60-76 | at any query the result takes the share of the angle between the two serving samples that the query has of their time; it is the first of the two where their stamps are equal |
| `Interpolation.ConstantTurnIsReproduced` | scripts/check_map_gravity_alignment.py:60-76 | a frontend that turns at a constant rate, by less than a half turn between samples, is reproduced at every query |
| `Interpolation.DenseRowFollowsFrontend` | scripts/check_map_gravity_alignment.py:101-107 | a dense row is turned from its keyframe exactly as the frontend's row is turned from the frontend's interpolated orientation at the keyframe's stamp |
| `Densify.DensifyOrientations` | scripts/check_map_gravity_alignment.py:91-108 | rewriting a copy of the inside rows in place yields the dense rows the next lemmas are about |
| `Densify.ApplyCorrections` | scripts/check_map_gravity_alignment.py:104-107 | every row is multiplied by the correction of its own keyframe, in place, exactly once |
| `Densify.KeyframeIsLastBefore` | scripts/check_map_gravity_alignment.py:104-105 | inside the span the keyframe used is the last one at or before the stamp, and neither clip bites |
| `Densify.DenseIsUnit` | scripts/check_map_gravity_alignment.py:91-108 | every dense quaternion is unit |
| `Densify.DenseReproducesKeyframes` | scripts/check_map_gravity_alignment.py:91-108 | for stamps in non-decreasing order and at least two frontend rows inside the span: every dense row reproduces every keyframe at its stamp, up to sign, exactly when frontend rows at a keyframe's stamp agree and keyframes at a frontend row's stamp agree; with fewer rows, in any order: exactly when keyframes sharing a stamp agree |
| `Densify.RowAtLastKeyframe` | scripts/check_map_gravity_alignment.py:101-107 | a row comes out as the last keyframe at its stamp, up to sign, exactly when its orientation is that of the first row with the stamp |
| `Densify.DistinctStampsReproduce` | scripts/check_map_gravity_alignment.py:91-97 | with stamps that never repeat every dense row at a keyframe's stamp has the keyframe's orientation up to sign |
| `Densify.DenseKeepsRows` | scripts/check_map_gravity_alignment.py:98-108 | stamps and positions stay the frontend's, row by row; with fewer than two rows inside the span the keyframes are returned |
| `Densify.InsideFollowsRaw` | scripts/check_map_gravity_alignment.py:98 | the rows inside are the frontend's rows within the keyframes' span, in their order |
| `Densify.RepeatedStampBreaksIt` | scripts/check_map_gravity_alignment.py:91-108 | a concrete input with a repeated frontend stamp whose dense rows do not reproduce the keyframes |
| `Densify.RepeatedKeyframeBreaksIt` | scripts/check_map_gravity_alignment.py:91-108 | a concrete input with a repeated keyframe stamp and strictly increasing frontend stamps whose dense rows do not either |
| `Densify.DenseKeepsFrontendMotion` | scripts/check_map_gravity_alignment.py:94-97 | between two rows served by one keyframe the relative rotation is the frontend's own |
| `Patch.ParsePatch` | scripts/check_canonical_ndt_convergence.py:384-434 | the line loop with its five variables computes the line-by-line state machine, errors included |
| `Patch.ParseAcceptsExactly` | scripts/check_canonical_ndt_convergence.py:384-434 | a patch is accepted exactly when it is not binary, has a header, every header has one valid path, no path repeats, and every hunk follows a header; its paths are then those of the headers |
| `Patch.ValidPathMeans` | scripts/check_canonical_ndt_convergence.py:122-135 | a path is valid exactly when it has no backslash or line end and is a single dot or has only parts between slashes other than the empty one, one dot and two dots |
| `Patch.AcceptedPatchIsSound` | scripts/check_canonical_ndt_convergence.py:397-427 | whatever the input, an accepted patch names distinct valid paths, each with its two lists, whose texts hold no line break and do not go on like a file marker |
| `Patch.RunCountsHeaders` | scripts/check_canonical_ndt_convergence.py:398-413 | an accepted patch has one path per header line |
| `Patch.RenameIsRefused` | scripts/check_canonical_ndt_convergence.py:400-404 | one header with two different paths anywhere refuses the patch |
| `Patch.RunInHunk` | scripts/check_canonical_ndt_convergence.py:414-424 | inside a hunk the loop appends exactly the texts of the changed lines |
| `PatchRoundTrip.HeaderRoundTrip` | scripts/check_canonical_ndt_convergence.py:83 | a printed header is read back as its path exactly when the path holds no ` b/`; otherwise the two sides differ |
| `PatchRoundTrip.ParseRendered` | scripts/check_canonical_ndt_convergence.py:384-434 | a printed patch whose files are each read as one file gives the paths in order, the changed lines among the physical lines, and totals that are their sums |
| `PatchRoundTrip.PathsMatchMeansReadable` | scripts/check_canonical_ndt_convergence.py:522-526 | when the paths read are those printed, every file was read as one file under its own path |
| `PatchRoundTrip.RoundTripExactly` | scripts/check_canonical_ndt_convergence.py:384-434 | all paths and all added and deleted lines come back exactly when paths are distinct and fit the header, the text is not binary, added and deleted texts hold no `splitlines` break and no marker prefix, and no context or range line comes apart into a header or a changed line |
| `PatchRoundTrip.MarkerLikeLineIsLost` | scripts/check_canonical_ndt_convergence.py:421-422 | a concrete patch whose one added line is lost |
| `PatchRoundTrip.SeparatorInPathIsRefused` | scripts/check_canonical_ndt_convergence.py:401-405 | a concrete valid path that is refused as a rename |
| `Text.SplitUnlines` | scripts/check_canonical_ndt_convergence.py:397 | splitting written lines gives the pieces of each line in turn, and the line itself where it holds no break |
| `Text.CountIsAttained` | scripts/check_canonical_ndt_convergence.py:607-611 | as many places of the needle as are counted can be found without overlap |
| `Text.CountIsLargest` | scripts/check_canonical_ndt_convergence.py:607-611 | no set of non-overlapping places of the needle is larger than the count |
| `Text.CountSplitsAtNewline` | scripts/check_canonical_ndt_convergence.py:607-611 | a needle without newline is counted separately on the two sides of a newline |
| `Text.CountOfFile` | scripts/check_canonical_ndt_convergence.py:607-611 | counting in a whole file is counting line by line, with or without a final newline |
| `ConsumerCounts.CheckReplacements` | scripts/check_canonical_ndt_convergence.py:604-625 | one result per replacement, in order, each with the counts the next lemmas are about |
| `ConsumerCounts.SumCounts` | scripts/check_canonical_ndt_convergence.py:608-613 | the running sum is the number of occurrences in all lines |
| `ConsumerCounts.ScriptMovesCount` | scripts/check_canonical_ndt_convergence.py:614-615 | a change of lines moves the number of occurrences by those added less those deleted |
| `ConsumerCounts.VirtualCountAgainstReal` | scripts/check_canonical_ndt_convergence.py:607-615 | the virtual count is the count in the produced text plus the deleted occurrences the parsed lists miss less the added ones; it is right for every file whose lines come back |
| `ConsumerCounts.PassesExactly` | scripts/check_canonical_ndt_convergence.py:616-623 | for a file whose lines come back the check passes exactly when source and deleted lines hold the old name the expected number of times, the added lines hold the new one as often and the old one never, and an after-count of zero is claimed |
| `ConsumerCounts.PassedReplacementExactly` | scripts/check_canonical_ndt_convergence.py:616-623 | a passing replacement has after-count zero, and the old name is really gone exactly when no added line holds it and the deleted lines hold all its occurrences |
| `ConsumerCounts.PassedReplacementIsComplete` | scripts/check_canonical_ndt_convergence.py:616-623 | for a file whose lines come back a passing replacement leaves no old name and the expected number of the new one |
| `ConsumerCounts.PassedWithTheOldNameLeft` | scripts/check_canonical_ndt_convergence.py:616-623 | a concrete patch with an added `++` line that passes although the old name stays |
| `ConsumerCounts.PassedWithAFormFeed` | scripts/check_canonical_ndt_convergence.py:616-623 | a concrete patch with a form feed in an added line that passes although the old name stays |
| `EdgeReplay.IntRoundTrip` | scripts/aggregate_backend_replay.py:60-61 | every printed integer is one unbroken word read back as that integer |
| `EdgeReplay.ReadEdges` | scripts/aggregate_backend_replay.py:49-67 | an edge is read exactly when some line holds it, endpoints ordered; other lines are ignored |
| `EdgeReplay.EdgeOfFirstTwoWords` | scripts/aggregate_backend_replay.py:54-66 | an edge is read from the first two words of a line, with any space around them and anything after them, exactly when both are integers |
| `EdgeReplay.OneWordHoldsNoEdge` | scripts/aggregate_backend_replay.py:55-57 | a line of fewer than two words holds none |
| `EdgeReplay.SignsAndZeros` | scripts/aggregate_backend_replay.py:60-61 | a plus sign or a leading zero changes nothing, a minus sign negates |
| `EdgeReplay.UnderscoreIsSkipped` | scripts/aggregate_backend_replay.py:60-61 | a single underscore between digits changes nothing |
| `EdgeReplay.EdgeRoundTrip` | scripts/aggregate_backend_replay.py:54-72 | a printed edge is one line, read back as that edge |
| `EdgeReplay.PayloadRoundTrip` | scripts/aggregate_backend_replay.py:49-72 | reading the payload of a set of normalised edges gives the set back |
| `EdgeReplay.PayloadIsCanonical` | scripts/aggregate_backend_replay.py:70-72 | two sets have the same payload exactly when they are equal |
| `EdgeReplay.ReadingIgnoresPresentation` | scripts/aggregate_backend_replay.py:49-72 | two files give the same set and payload exactly when each holds every edge of the other, however ordered, repeated or written |
| `EdgeReplay.SwappedEndpoints` | scripts/aggregate_backend_replay.py:60-65 | swapping the endpoints of a line changes nothing |
| `EdgeReplay.Compare` | scripts/aggregate_backend_replay.py:140-155 | identical exactly when all runs agree pairwise; otherwise the symmetric differences against the first run, one of them nonempty |
| `EdgeReplay.IdenticalMeansOnePayload` | scripts/aggregate_backend_replay.py:70-72 | all runs agree exactly when they share one payload |
| `ApeScoring.Associate` | scripts/ape_from_tum.py:49-83 | the lists hold the matches in order, pairs plus rejected is the total, and the reported gap is the largest one attained |
| `ApeScoring.BestCandidate` | scripts/ape_from_tum.py:56-69 | the candidate loop keeps the later neighbour unless the earlier one is strictly nearer |
| `ApeScoring.Largest` | scripts/ape_from_tum.py:81 | the maximum is attained and bounds all, and is absent exactly for no matches |
| `ApeScoring.ChoiceIsNearest` | scripts/ape_from_tum.py:56-73 | the choice is globally nearest, and there is none exactly when no estimate lies within the bound |
| `ApeScoring.MatchesAreNearest` | scripts/ape_from_tum.py:56-75 | matches come in reference order, each with a globally nearest estimate within the bound |
| `ApeScoring.MatchesBreakTies` | scripts/ape_from_tum.py:56-69 | among equally near estimates the first one at or after the reference is matched, and without such the last one before it |
| `ApeScoring.RejectedMeansUnreachable` | scripts/ape_from_tum.py:70-72 | a reference is matched exactly when some estimate lies within the bound |
| `ApeScoring.MatchesNeverGoBack` | scripts/ape_from_tum.py:28-75 | along sorted references the chosen estimate indices never decrease |
| `ApeScoring.InterpolateAssociation` | scripts/ape_from_tum.py:113-156 | the lists hold the samples in order, pairs plus rejected is the total, and the reported span is the largest one attained |
| `ApeScoring.SampleIsDetermined` | scripts/ape_from_tum.py:121-146 | between the first and the last stamp the sample divides the segment between its two neighbours as the time does and spans their distance in time; at or before the first stamp it is the first position, after the last one the last, with the distance in time as its span, refused exactly beyond the bound |
| `ApeScoring.ClampedIsNearest` | scripts/ape_from_tum.py:123-135 | what is taken beyond the ends is an estimate at least as near in time as any other |
| `ApeScoring.SamplesFollowReferences` | scripts/ape_from_tum.py:113-150 | the lists hold the references within reach, in order, each with the sample at its time |
| `ApeScoring.SampleStaysInBracket` | scripts/ape_from_tum.py:121-146 | interior references lie strictly after one stamp and at or before the next, coordinates stay between neighbours, clamp gaps are not negative, rejection is exactly exceeding the bound |
| `ApeScoring.AffineIsReproduced` | scripts/ape_from_tum.py:136-146 | a trajectory affine in time is reproduced exactly in its span |
| `ApeScoring.ExactStampsAgree` | scripts/ape_from_tum.py:49-146 | at a stamp of the estimate both associations, each with its own bound, return the same recorded position |
| `ApeScoring.AlignmentKeepsShape` | scripts/ape_from_tum.py:159-166 | alignment keeps every pairwise difference, makes the first error zero and is idempotent |
| `ApeScoring.CalcErrors` | scripts/ape_from_tum.py:203-210 | one distance per pair, up to the shorter list |
| `ApeScoring.RmseSplits` | scripts/ape_from_tum.py:221-224 | rmse^2 = mean^2 + std^2 for every non-empty list |
| `ApeScoring.StatisticsInOrder` | scripts/ape_from_tum.py:221-226 | min <= mean <= rmse <= max |
| `ApeScoring.MedianSplits` | scripts/ape_from_tum.py:223-226 | min <= median <= max, with half of the errors on either side |
| `ApeScoring.MedianIsMidway` | scripts/ape_from_tum.py:223-226 | the median is midway between the two middle errors of the sorted list |
| `PublishStep.Directory.Publish` | scripts/build_mid360_onboarding_fixture.py:464-621 | alone: all destinations linked and nothing else changed, or the directory as it was; success exactly when nothing faults, exists or repeats |
| `PublishStep.Directory.RollBack` | scripts/build_mid360_onboarding_fixture.py:612-620 | the failure loop restores the directory |
| `PublishProtocol.NextKeepsInv` | scripts/build_mid360_onboarding_fixture.py:602-621 | every system call of the publisher keeps the invariant |
| `PublishProtocol.DisturbKeepsInv` | scripts/build_mid360_onboarding_fixture.py:602-621 | so does every change by another process that is not one of the harmful touches |
| `PublishProtocol.RunKeepsInv` | scripts/build_mid360_onboarding_fixture.py:602-621 | the invariant holds in every state of every run without a harmful touch |
| `PublishProtocol.PublishedMeansLinked` | scripts/build_mid360_onboarding_fixture.py:602-611 | on success, whatever other processes did, every destination nobody else changed names its own linked file |
| `PublishProtocol.FailedMeansWithdrawn` | scripts/build_mid360_onboarding_fixture.py:612-621 | in runs without a harmful touch: on failure no entry names a linked file any more, and the clean-up itself never raises |
| `PublishProtocol.MoveKeeps` | scripts/build_mid360_onboarding_fixture.py:602-621 | every call of the publisher and every change by others, harmful or not, keeps the order of the recorded outputs and the links nobody touched |
| `PublishProtocol.PublisherOverwritesNothing` | scripts/build_mid360_onboarding_fixture.py:464-621 | in every run no call overwrites an entry, what is added is the publisher's own at its own destination, and only destinations other than the last are ever removed |
| `PublishProtocol.PublisherHarmsNothing` | scripts/build_mid360_onboarding_fixture.py:464-621 | in runs without a harmful touch no call removes or changes a foreign entry |
| `PublishProtocol.PublisherTerminates` | scripts/build_mid360_onboarding_fixture.py:602-621 | each call brings the publisher closer to its end and nobody can push it back, harmful touches included |
| `PublishProtocol.RunsAreShort` | scripts/build_mid360_onboarding_fixture.py:464-621 | along every run, harmful touches or not, it makes at most 5n + 4 calls for n outputs, and then it has stopped |
| `PublishProtocol.HarmExactly` | scripts/build_mid360_onboarding_fixture.py:602-621 | after a change by another process the publisher can, going on alone, come to remove a foreign entry or fail in its clean-up exactly when the change replaces an output other than the last before its identification, or touches an entry about to be removed |
| `PublishProtocol.ReplacedBeforeIdentified` | scripts/build_mid360_onboarding_fixture.py:607-608 | from any directory free of the outputs each output but the last is met linked and unidentified, and replacing it there ends in the removal of the foreign entry |
| `PublishProtocol.TouchedBeforeRemoval` | scripts/build_mid360_onboarding_fixture.py:613-620 | likewise each is met just before its removal, where replacing it loses the replacement and removing it makes the clean-up raise |
| `ReleaseReadiness.InspectCheckRuns` | scripts/check_ndt_omp_release_readiness.py:342-391 | accepted exactly when complete and not truncated; each run is classified and counted once |
| `ReleaseReadiness.CountsPartition` | scripts/check_ndt_omp_release_readiness.py:861-864 | the three counts add up to the number of runs |
| `ReleaseReadiness.CountExtremes` | scripts/check_ndt_omp_release_readiness.py:893-905 | a count is zero exactly when no run has its class, and full exactly when all have |
| `ReleaseReadiness.InspectActivity` | scripts/check_ndt_omp_release_readiness.py:409-458 | a response is pending exactly when the request is unmerged and some actionable review has no strictly later author response |
| `ReleaseReadiness.OneMoreActivity` | scripts/check_ndt_omp_release_readiness.py:409-458 | bots, comments from elsewhere and those that ask for nothing change nothing; a response later than all else answers everything; a review without a later response is open |
| `ReleaseReadiness.LatestDecides` | scripts/check_ndt_omp_release_readiness.py:449-458 | looking at the latest actionable review decides it for all of them |
| `ReleaseReadiness.EvaluateReadiness` | scripts/check_ndt_omp_release_readiness.py:780-1057 | the status of the branch taken and its list of actions, in order, over any list of distributions |
| `ReadinessAdvice.RequestAdvice` | scripts/check_ndt_omp_release_readiness.py:342-1036 | told from what the inspections were given: replacing a closed request, resolving a conflict, repairing failed checks, awaiting unfinished ones, obtaining missing ones, answering a review and awaiting mergeability are each advised for exactly the unlisted distributions with that problem in a release under way, unless an earlier problem takes precedence |
| `ReadinessAdvice.ProgressAdvice` | scripts/check_ndt_omp_release_readiness.py:1037-1057 | without any problem: waiting where tag and release repository exist, Bloom where not, and creating exactly what is missing of the two |
| `ReadinessAdvice.EarlyAdvice` | scripts/check_ndt_omp_release_readiness.py:780-890 | repairing the candidate, going online, resolving the inspection, tagging and proceeding are each advised exactly in their situation |
| `ReadinessAdvice.StatusMeans` | scripts/check_ndt_omp_release_readiness.py:780-1057 | each status told from the artifacts and from what the inspections were given |
| `ReadinessAdvice.ConditionsMean` | scripts/check_ndt_omp_release_readiness.py:342-458 | the conditions tested on a report hold exactly when some run failed, is not completed, or none exists, some actionable review is unanswered, and so on |
| `ReleaseReadiness.Collect` | scripts/check_ndt_omp_release_readiness.py:1037-1057 | one loop over the distributions appends what is due for each unlisted one, in order |
| `ReleaseReadiness.AllLoopActionsAre` | scripts/check_ndt_omp_release_readiness.py:925-1057 | the actions that name a distribution are exactly those due for an unlisted one in some loop of the branch |
| `ReleaseReadiness.InProgressExactly` | scripts/check_ndt_omp_release_readiness.py:815-1057 | with tag and repository in place, IN_PROGRESS exactly when the inspection is clean, something is unlisted, and all unlisted requests only wait for a merge |
| `ReleaseReadiness.ReviewRequiredExactly` | scripts/check_ndt_omp_release_readiness.py:815-1057 | with tag and repository in place, REVIEW_REQUIRED exactly when the inspection is clean, no unlisted request needs repair, and one awaits a response |
| `ReleaseReadiness.ArtifactsDecide` | scripts/check_ndt_omp_release_readiness.py:815-1057 | RELEASED exactly when a clean inspection finds tag, repository and every distribution; READY_TO_TAG exactly when it finds none |
| `ReleaseReadiness.WaitAdvice` | scripts/check_ndt_omp_release_readiness.py:1037-1050 | waiting is advised for exactly the unlisted distributions of an IN_PROGRESS report with tag and repository |
| `ReleaseReadiness.ReportsAreConsistent` | scripts/check_ndt_omp_release_readiness.py:849-865 | what the inspection reports always passes the consistency test applied to it |
| `ReleaseReadiness.WaitOnlyIsNeverEarly` | scripts/check_ndt_omp_release_readiness.py:342-1057 | waiting is advised only when the request is merged, or open, mergeable, with at least one run and all of them passing; and unless it is merged, every actionable review is answered |
| `ReleaseReadiness.MergedMayBeUnanswered` | scripts/check_ndt_omp_release_readiness.py:451-458 | a concrete merged request with an unanswered actionable review for which waiting is advised |
| `ReleaseProfiles.EvaluateProfile` | scripts/benchmark_summary.py:281-402 | the run named is the first listed of the best matched records and the status follows from it, counts and rejection lists are exact, and no data exactly when nothing matches |
| `ReleaseProfiles.CountsFollowRecords` | scripts/benchmark_summary.py:285-296 | the candidate and matched counts are the numbers of places in the record list that qualify |
| `ReleaseProfiles.JudgeMeans` | scripts/benchmark_summary.py:392-399 | each status is equivalent to its position of the best value against limit and target |
| `ReleaseProfiles.CollectRejections` | scripts/benchmark_summary.py:297-340 | the three lists name exactly the rejected candidates of each kind, each once |
| `ReleaseProfiles.EvaluateReleaseProfiles` | scripts/benchmark_summary.py:281-402 | one outcome per profile, in order, each failing exactly when its profile is not cleared |
| `ReleaseProfiles.OutcomeDecides` | scripts/benchmark_summary.py:281-402 | an outcome fails exactly when the profile is not report-only and no record is evidence for it |
| `ReleaseProfiles.Gate` | scripts/benchmark_summary.py:877-905 | the gate passes exactly when profiles are given and each is cleared |
| `ReleaseProfiles.GateSpelledOut` | scripts/benchmark_summary.py:225-278 | every profile only reports or has a record that meets each rule set, whose error counts for the metric and is within the limit, with provenance as asked for |
| `ReleaseProfiles.BlockingGateExactly` | scripts/benchmark_summary.py:225-278 | with a required commit: every blocking profile has a selected, complete, clean record at that commit within its limit |
| `ReleaseProfiles.MoreRunsNeverBlock` | scripts/benchmark_summary.py:877-905 | adding records never turns a pass into a block |
| `ReleaseProfiles.CandidatesAreAccountedFor` | scripts/benchmark_summary.py:225-267 | every candidate is matched or has exactly one of the three reasons against it |
| `ReleaseProfiles.NoDataIsExplained` | scripts/benchmark_summary.py:297-402 | candidates without data always show up in some rejection list |
| `ReviewRouting.CheckSlices` | scripts/check_product_draft_review_routing.py:193-213 | accepted exactly when every slice is valid at its position |
| `ReviewRouting.DependenciesAreExact` | scripts/check_product_draft_review_routing.py:247-259 | accepted exactly when the listed lanes are the required ones, once each, in order, all earlier |
| `ReviewRouting.CheckLane` | scripts/check_product_draft_review_routing.py:243-275 | identity, order, dependencies and budgets of one lane are all required |
| `ReviewRouting.CheckLanes` | scripts/check_product_draft_review_routing.py:239-293 | accepted exactly when every lane is; then the normalised lanes and the sums over them |
| `ReviewRouting.BuildReport` | scripts/check_product_draft_review_routing.py:193-300 | a report is built exactly for accepted contracts and lists every lane with its sums |
| `ReviewRouting.LanesPartitionSlices` | scripts/check_product_draft_review_routing.py:215-231 | every expected slice lies in one and only one lane |
| `ReviewRouting.DependenciesPointBack` | scripts/check_product_draft_review_routing.py:247-259 | each slice dependency lies in the same or an earlier lane |
| `ReviewRouting.LaneDependenciesAre` | scripts/check_product_draft_review_routing.py:247-259 | a lane lists exactly the other lanes that hold a slice which one of its own slices depends on |
| `ReviewRouting.LaneGraphIsAcyclic` | scripts/check_product_draft_review_routing.py:253-259 | along any path of lane dependencies the positions strictly fall |
| `ReviewRouting.LaneSumsConserveTotals` | scripts/check_product_draft_review_routing.py:260-300 | the lane sums of paths and verifications equal the sums over all slices, and the counts match the overview |
| `ReviewRouting.LaneBudgetsAreItsSlices` | scripts/check_product_draft_review_routing.py:260-275 | each lane's budgets are the numbers of paths and verifications of its own slices |
| `ReviewRouting.TotalsAreOfAllSlices` | scripts/check_product_draft_review_routing.py:290-300 | the totals are the numbers of paths and verifications of all slices |
| `ReviewRouting.EverySliceCounts` | scripts/check_product_draft_review_routing.py:193-213 | every accepted slice adds at least one path and one verification |
| `ReviewRouting.SumOfPermutation` | scripts/check_product_draft_review_routing.py:290-293 | sums over lists with the same members, each once, are equal |
| `MapRegression.VerdictIsTheAllowance` | scripts/check_map_quality_regression.py:279-312 | the percentage test agrees with the printed absolute allowance |
| `MapRegression.PercentIsTheLoss` | scripts/check_map_quality_regression.py:279-289 | the percentage is the share of the baseline by which the candidate is worse, never negative |
| `MapRegression.Compare` | scripts/check_map_quality_regression.py:292-350 | refused exactly when not comparable; otherwise passes exactly when every metric stays within its allowance, and counts the violations |
| `MapRegression.RefusedExactly` | scripts/check_map_quality_regression.py:200-277 | refused exactly for a negative allowance, an unfit report, different extraction settings or a zero among the five baseline metrics |
| `MapRegression.VerdictsSpelledOut` | scripts/check_map_quality_regression.py:279-330 | the five verdicts in the reports' own fields |
| `MapRegression.PercentagesSpelledOut` | scripts/check_map_quality_regression.py:279-289 | the five percentages in the reports' own fields |
| `MapRegression.CompareMetrics` | scripts/check_map_quality_regression.py:306-329 | one check per metric with its allowance, percentage and verdict, and the number of violations |
| `MapRegression.PassingStep` | scripts/check_map_quality_regression.py:279-330 | one passing comparison multiplies a metric by no worse than the factor of its direction |
| `MapRegression.ThicknessOverChain` | scripts/check_map_quality_regression.py:279-330 | over n passing comparisons thickness grows by at most (1 + p/100)^n |
| `MapRegression.SharesOverChain` | scripts/check_map_quality_regression.py:279-330 | for p <= 100 coverage and valid fraction keep at least (1 - p/100)^n |
| `MapRegression.EntropyOverChain` | scripts/check_map_quality_regression.py:279-330 | for p <= 100 a negative entropy stays at or below its (1 - p/100)^n share, and a positive one at or below (1 + p/100)^n times its start |
| `MapRegression.PositiveEntropyLost` | scripts/check_map_quality_regression.py:279-330 | for every p > 100 a passing chain of three whose entropy starts positive and exceeds its bound |
| `MapRegression.BoundsHoldExactly` | scripts/check_map_quality_regression.py:279-330 | the bounds on coverage, valid fraction and either sign of the entropy hold along every passing chain exactly when p <= 100 |

## Left out

- The C++ SLAM nodes, and the other readiness and documentation checkers, which are mostly fixed-shape field checks.
- File reading, subprocesses, `gh`, `git` and HTTP: their results are arbitrary inputs of the members above.
- Floating-point rounding, infinities, NaN (but for the lost position in `FrameOffset`) and printed digits: numbers are exact reals. The finiteness test of `load_tum` is therefore outside the model.
- Schema validation. The review contract's schema fixes the number of lanes, so `ReviewRouting.BuildReport` takes as many lanes as expected identities.
- SHA-256: `EdgeReplay` models the hashed payload, not the hash.
- SVD alignment and the Umeyama variant, `estimate_map_tilt` and the reading of IMU data.
- Sine, cosine, arc cosine and square root themselves: they are parameters.
- `SparseAssociation.Associate`: takes the strictly increasing stamps `load_tum` returns; likewise the results of `ApeScoring` are about the sorted lists `read_tum` returns.
- `Densify.DenseReproducesKeyframes`: with two or more rows inside the span it takes non-decreasing stamps, which `np.searchsorted` asks for; for a whole array of queries on unsorted stamps numpy does not promise the plain bisection modelled here.
- The regular expression for actionable reviews is a flag of the activity, and time stamps are ordered integers.
- `int()` of words with non-ASCII digits, or with more digits than Python's conversion limit.
- Display: the order in which check runs are listed, the rmse column and sigma of the replay report, Markdown and cards. Actions are tags, not sentences.
- `ReleaseProfiles.EvaluateProfile`: takes each record's metric as already parsed.
- `ReviewRouting.BuildReport`: does not say which error is raised when a contract has several faults.
- `MapRegression.Compare`: reports have all their fields and these are numbers; the error text is not modelled.
- Opening files in text mode: carriage returns have become newlines when a text reaches the model.
- `PublishProtocol.RunKeepsInv`: other processes write inodes of their own; looking up or removing an entry fails only when it is absent.
