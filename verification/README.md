# Verified models of the autonomous vehicle stack

This project models the algorithms and stateful protocols of the stack in Dafny and proves
what they are for. Each file is one module. Code that computes a value is a function; code that
works by changing things is a method or a class, proved against a specification whose properties
are lemmas; code that runs on several threads is a state machine over its atomic steps.

## What is modelled

- `Points`, `DensityGraph`, `Dbscan`, `VoxelGrid`: lidar clustering and downsampling.
- `LinearAlgebra`, `Kalman`, `LinearSolve`: quadratic forms over exact reals, for any finite
  dimension, and the two steps of a Kalman filter. A matrix is invertible when S x = 0 only for
  x = 0; elimination by Schur complements shows that the solutions exist.
- `Measurements`, `SensorModel`, `SensorFusion`, `FusionModes`: the multi-sensor filter, its
  buffer, its grouping in time, and its two fusion modes. `Corrections`, `SensorEffects`: what an
  update does to the state.
- `Localization`, `LocalizationEffects`: the extended Kalman filter of the localizer. `Estimates`, `Angles`: what the two
  filters share, and wrapping of angles.
- `RadarAssociation`, `RadarTracker`, `RadarProcessor`: gated matching and the track lifecycle.
- `IncidentLog`, `AuditLog`, `AuditRace`: two hash-chained logs, across restarts, and what
  overlapping calls do to the second.
- `SecretsManager`: the envelope-encrypted secret store, as a refinement of a plain map.
- `IdsPipeline`, `IdsShutdown`, `AlertLifecycle`, `AlertManager`: event workers through stops and
  restarts, and the alert escalator, interleaved in any way.
- `SessionManager`, `CosineScore`, `Biometric`, `Lockout`: session registry, biometric matching
  and template store, and the login lockout.
- `Firmware`: the image format and the decision to accept an image.
- `Options`, `IdLists`, `Sorting`: a missing value, lists of distinct ids, and sorting by a key.

## What is assumed

- Numbers are exact reals and unbounded integers. Square roots are exact.
- A digest is not the empty string. Lines written are read back as they were.
- The cipher opens what it sealed. Random ids, keys and nonces are drawn fresh.
- Clock readings, matching passwords, radar distances, invertibility of a track's innovation
  covariance, trigonometric values, signature checks and digests are parameters.
- The voxel size is not zero.
- A library sort is some sort: any order of equal elements is covered.
- An operation under a lock is one step. Where the source releases the lock in between, or starts
  before it takes it, a state machine has a step for each part: `AlertLifecycle`, `AuditRace`. The
  class `AuditLogger` and its runs in `AuditLog` are of one call at a time.

## What the proofs found

The models follow the code, also where its documentation says otherwise. Each point is stated by
the members named with it.

- A batch update and a sequential update give the same estimate, whatever the threshold: in exact
  arithmetic the fusion mode is a matter of cost and rounding only (`FusionModes.ModesAgree`,
  `FusionModes.RunsAgree`).
- The buffer drops measurements more than a second behind the latest, but the latest time is
  floored at zero, so with negative times even the newest can be dropped. The rule holds exactly
  for times from -1 on and for what is too old anyway (`SensorFusion.NewestCanBeDropped`,
  `SensorFusion.DropRuleHoldsExactly`).
- With a negative threshold the time groups are singletons that exceed it; the span limit holds
  exactly for a threshold that is not negative, or an empty buffer (`Measurements.Synchronize`).
- The localizer needs no process noise to stay positive definite, although its transition can be
  singular, exactly when the roll column cancels (`Localization.NoiseReachesErased`,
  `Localization.TransitionIsSingularExactly`).
- Radar misses are never counted: no track coasts, and none is deleted. A track is confirmed at
  max(2, min_hits_to_confirm) hits (`RadarTracker.StepKeeps`, `RadarTracker.EveryRunKeeps`).
- Stopping the event engine is said to drain its queue. Of the events accepted before the stop
  flag, it leaves exactly those behind the items that blocked workers still take, so it drains
  them if and only if there are none. Events accepted after the flag can be left even then
  (`IdsShutdown.StopLeavesAnEvent`, `IdsShutdown.StopLeavesExactly`, `IdsShutdown.LateEventIsLeft`).
- A stop can also leave a sentinel that ends a worker of the next start, so that the engine runs
  without one. A running engine keeps its workers until the next stop if and only if no sentinel
  is queued (`IdsShutdown.StaleSentinelKillsRestart`, `IdsShutdown.KeepsWorkersExactly`).
- The escalator transitions alerts from an earlier snapshot. It moves one that is no longer new
  exactly when a caller acknowledged or investigated it since and nothing else was granted after
  that; it does not count what it escalates (`AlertManager.EscalatorOvertakesOperator`,
  `AlertManager.EscalatorOvertakesExactly`).
- Resolving an alert twice counts twice; the counter is right exactly when nobody does
  (`AlertManager.ResolvingTwiceCountsTwo`, `AlertManager.ResolvedCounter`).
- A session cap below one still leaves the new session, and only such a cap is exceeded
  (`SessionManager.CapIsKeptExactly`).
- The audit log verifies after concurrent calls exactly when no entry lost its tail hash to
  another, so overlapping calls break it (`AuditRace.VerifiesExactly`, `AuditRace.OverlapBreaks`,
  `AuditRace.TwoCallsRace`).
- The lockout bounds the passwords that `authenticate` compares. `verify_credentials` and
  `change_password` compare them whatever the lock, and wrong ones leave no trace (`Lockout.GuessesInWindow`,
  `Lockout.OtherCallsAreFree`, `Lockout.OtherCallsAreUnbounded`).
- Biometric matching fails its assertion exactly when all eligible templates point exactly
  opposite to the candidate (`Biometric.AttemptMeans`, `Biometric.AssertionCanFail`).
- A firmware image without a signature passes the signature check alone, and an unsigned image
  where a signature is required is reported as an invalid header when nothing else is wrong with
  it (`Firmware.FirmwareValidator.VerifySignature`, `Firmware.FirmwareValidator.ValidateImage`).
- The firmware signature covers the payload alone, not the ECU and version in the header
  (`Firmware.SignatureCoversPayloadOnly`, `Firmware.RelabelledIsAccepted`).

## Model

| member | source | states |
|---|---|---|
| Dbscan.Cluster | C++/lidar_processing.cpp:326-380 | The labels are a density clustering of the cloud: core points share a label exactly when a chain of core points, each within eps of the next, joins them; noise is exactly what is not core and sees no core point; a border point carries the least label of the core points it sees; the labels 1..k are all used and numbered by first core point. Core points of one cluster are joined by a chain of core points in steps of at most eps along every axis. Terminates although the queue holds duplicates |
| Points.NearMeans | C++/lidar_processing.cpp:389-397 | Two points are neighbours exactly when no direction in space keeps them more than eps apart |
| Points.NearOnAxes | C++/lidar_processing.cpp:389-397 | Neighbours are at most eps apart along every axis, and points that agree in two coordinates are neighbours exactly when the third differs by at most eps |
| Dbscan.GapSeparates | C++/lidar_processing.cpp:326-380 | No cluster reaches across an empty slab wider than eps, in any direction |
| Dbscan.ClustersAreJoined | C++/lidar_processing.cpp:326-380 | The chains of a clustering take steps of at most eps along every axis |
| Dbscan.CoreExactly | C++/lidar_processing.cpp:337-343 | A point is core exactly when at least the minimum of points, itself included, is within reach; with a minimum of one nothing is noise |
| Dbscan.Expand | C++/lidar_processing.cpp:354-376 | Draining the queue keeps every invariant of the growing cluster and leaves nothing to claim; measure: the set of unvisited points, then the queue length |
| Dbscan.Bring | C++/lidar_processing.cpp:366-374 | Exactly the unclaimed neighbours of a core point are queued |
| Dbscan.RegionQuery | C++/lidar_processing.cpp:383-401 | Exactly the indices within eps, each once |
| Dbscan.MarkNoise | C++/lidar_processing.cpp:342-345 | Only a non-core point becomes noise, which keeps the invariants |
| Dbscan.OpenCluster | C++/lidar_processing.cpp:347-354 | A new cluster opened at a core point starts with exactly its neighbours on the frontier |
| Dbscan.ClaimFront | C++/lidar_processing.cpp:354-376 | Claiming the front of the queue, a former noise point included, keeps soundness and the frontier; a noise point needs no expansion |
| Dbscan.FinishCluster | C++/lidar_processing.cpp:354-376 | With an empty queue the cluster is complete, and the invariant of the scan holds past its first point |
| Dbscan.ScanComplete | C++/lidar_processing.cpp:337-379 | When the scan is over, its invariants add up to the density clustering |
| DensityGraph.ClusteringIsUnique | C++/lidar_processing.cpp:326-380 | The specification has exactly one solution, label by label, for every cloud, radius and minimum size |
| VoxelGrid.Voxelize | C++/lidar_processing.cpp:214-249 | One point per occupied voxel, the centroid of the points in it, for every cloud |
| VoxelGrid.VoxelIsCube | C++/lidar_processing.cpp:219-229 | For a positive size, a point is in a voxel exactly when it lies in its half-open cube of that size |
| VoxelGrid.CentroidIsMean | C++/lidar_processing.cpp:231-246 | In every coordinate and in the intensity, the centroid times the number of points is their sum |
| VoxelGrid.CentroidStays | C++/lidar_processing.cpp:231-246 | A centroid lies in the voxel its points came from |
| VoxelGrid.OutputVoxels | C++/lidar_processing.cpp:231-246 | Output points occupy pairwise distinct voxels, the ones they were computed from |
| VoxelGrid.DistinctVoxelsAreKept | C++/lidar_processing.cpp:214-249 | Points in pairwise distinct voxels come back as they are |
| VoxelGrid.DownsamplingIsIdempotent | C++/lidar_processing.cpp:214-249 | Downsampling its own output returns the same points up to order |
| Kalman.JosephKeepsCovariance | C++/sensor_fusion.cpp:499-505 | For any gain the Joseph form of a covariance is a covariance (symmetric, positive definite), and the symmetrization after it changes nothing |
| Kalman.InnovationIsRegular | C++/sensor_fusion.cpp:493-497 | Every innovation covariance S is a covariance, so S x = 0 only for x = 0 |
| Kalman.PropagationKeepsCovariance | C++/sensor_fusion.cpp:243-248 | F P F^T + Q, symmetrized, is a covariance if and only if no direction is both erased by F and free of noise |
| Kalman.OptimalUpdateForm | C++/sensor_fusion.cpp:496-502 | With K S = P H^T the Joseph form is P - K S K^T as a quadratic form |
| Kalman.OptimalUpdateContracts | C++/sensor_fusion.cpp:496-502 | With the optimal gain no direction becomes more uncertain |
| LinearSolve.Solve | C++/sensor_fusion.cpp:496-497 | Every system with a covariance matrix has a solution, computed by elimination: the inverse the source takes exists |
| LinearSolve.Gain | C++/sensor_fusion.cpp:496-497 | A gain with K S = P H^T exists for every covariance and noise |
| LinearSolve.GainIsUnique | C++/sensor_fusion.cpp:496-497 | and there is only one |
| Measurements.Synchronize | C++/sensor_fusion.cpp:429-466 | A time-ordered distribution of the buffer over groups whose first times are more than the threshold apart; it respects the span limit exactly when the threshold is not negative or the buffer is empty |
| Measurements.FewestGroups | C++/sensor_fusion.cpp:429-466 | No partition of the same buffer with the same span limit has fewer groups |
| Measurements.SortByTime | C++/sensor_fusion.cpp:436-441 | A time-ordered permutation of the buffer |
| SensorModel.SwitchesAgree | C++/sensor_fusion.cpp:273-413 | The dimension switch and the matrix builder agree on every sensor, unknown ones included, and all noise variances are positive |
| SensorModel.StackGroup | C++/sensor_fusion.cpp:527-547 | The blocks written at the running row offset tile the stacked matrices exactly: the result is the stack of the group's readings with a diagonal noise matrix |
| SensorModel.TransitionIsRegular | C++/sensor_fusion.cpp:186-197 | The transition matrix erases no direction, for any time step |
| SensorModel.NoiseIsSemidefinite | C++/sensor_fusion.cpp:199-241 | The process noise is symmetric and positive semidefinite |
| SensorEffects.SensorObserves | C++/sensor_fusion.cpp:273-413 | Per sensor, the matrix applied to any state gives the position, the orientation, both, or x and y, as documented, and z holds the data, zeros for missing entries |
| SensorEffects.SensorNoise | C++/sensor_fusion.cpp:273-413 | A reported variance is taken as it is, the lidar's are fixed, and every sensor has its default |
| SensorEffects.AgreeingMeasurementKeepsState | C++/sensor_fusion.cpp:488-505 | A measurement that agrees with the state does not move it |
| SensorEffects.AgreeingBufferKeepsState | C++/sensor_fusion.cpp:477-507 | A buffer of measurements that all agree with the state leaves it where it is |
| SensorEffects.MeasurementPullsState | C++/sensor_fusion.cpp:488-505 | No measurement leaves the state farther from what it reads, in units of its variances |
| SensorEffects.FirstFix | C++/sensor_fusion.cpp:281-302 | The first GPS fix of a new filter moves the position towards the reading by the share of the initial variance, and nothing else |
| SensorEffects.InitialUncertainty | C++/sensor_fusion.cpp:118-128 | The initial variance of each state, nothing correlated |
| SensorEffects.PredictionMoves | C++/sensor_fusion.cpp:186-197 | A prediction moves the position along the velocity, and nothing else |
| SensorEffects.NoiseIsRandomAcceleration | C++/sensor_fusion.cpp:199-241 | The noise of position and velocity is that of a random acceleration along each axis |
| Corrections.MisfitNeverGrows | C++/sensor_fusion.cpp:493-502 | For any matrix, covariance and diagonal noise, an optimal update never makes the state agree less with the reading |
| Corrections.AgreeingStateStays | C++/sensor_fusion.cpp:493-502 | and does not move a state that agrees with it |
| SensorFusion.EveryRunKeepsCovariance | C++/sensor_fusion.cpp:109-562 | In every state reached by adding, predicting, updating and resetting, in either mode, the covariance is symmetric and positive definite and the buffer holds at most 200 measurements |
| SensorFusion.EveryInnovationIsRegular | C++/sensor_fusion.cpp:493-553 | In every reachable state the innovation covariance of any group, stacked or single, is regular |
| SensorFusion.UpdateNeverAddsUncertainty | C++/sensor_fusion.cpp:470-562 | Updating with a whole buffer makes no direction more uncertain, in either mode |
| SensorFusion.FusedAllContracts | C++/sensor_fusion.cpp:477-507 | One measurement after another never adds uncertainty |
| SensorFusion.FusedGroupsContracts | C++/sensor_fusion.cpp:508-558 | Nor does one group after another |
| SensorFusion.DroppedExactly | C++/sensor_fusion.cpp:144-158 | Which measurements are dropped, in terms of the buffer alone: those earlier than -1, and those more than a second behind a buffered one |
| SensorFusion.FullBufferDropsOldest | C++/sensor_fusion.cpp:160-171 | A full buffer gives up one measurement that no buffered one is older than, and nothing else |
| SensorFusion.DropRuleHoldsExactly | C++/sensor_fusion.cpp:144-158 | For a buffer that is not empty the documented rule, drop what is more than a second behind a buffered measurement, holds exactly for times from -1 on and for measurements that are too old anyway |
| SensorFusion.NewestCanBeDropped | C++/sensor_fusion.cpp:144-158 | A measurement newer than everything buffered that is dropped |
| FusionModes.ModesAgree | C++/sensor_fusion.cpp:470-562 | An update gives the same state whatever the fusion mode, the synchronization threshold and the order of the buffer |
| FusionModes.RunsAgree | C++/sensor_fusion.cpp:109-562 | Over every run of adding, predicting, updating and resetting, filters that differ only in mode and threshold go through the same states |
| FusionModes.BatchIsSequential | C++/sensor_fusion.cpp:477-558 | Batch mode with any grouping of the buffer computes what sequential mode computes |
| FusionModes.TwiceIsAtop | C++/sensor_fusion.cpp:488-553 | Two readings one after the other, or both stacked: the same state and covariance |
| FusionModes.FusionCommutes | C++/sensor_fusion.cpp:479-507 | The order of two readings does not matter |
| FusionModes.OrderDoesNotMatter | C++/sensor_fusion.cpp:479-507 | Sequential fusion gives the same estimate for every permutation of the buffer |
| FusionModes.GroupIsSequence | C++/sensor_fusion.cpp:512-558 | One stacked group equals its measurements one by one, skipped ones included |
| FusionModes.PosteriorAnswers | C++/sensor_fusion.cpp:499-502 | The Joseph update answers every w with the solution of y = P (w - H^T l), R l = H y |
| FusionModes.AnswersAreUnique | C++/sensor_fusion.cpp:493-502 | and these equations have one solution |
| SensorFusion.SensorFusion.constructor | C++/sensor_fusion.cpp:109-131 | Starts from the initial estimate with an empty buffer |
| SensorFusion.SensorFusion.AddMeasurement | C++/sensor_fusion.cpp:139-172 | Drops a measurement over a second behind the latest, replaces the oldest entry of a full buffer, appends otherwise |
| SensorFusion.SensorFusion.LatestTime | C++/sensor_fusion.cpp:146-150 | The latest buffered time, never below zero |
| SensorFusion.SensorFusion.OldestIndex | C++/sensor_fusion.cpp:161-168 | The first of the oldest entries |
| SensorFusion.SensorFusion.Predict | C++/sensor_fusion.cpp:176-249 | Moves state and covariance by the motion model; nothing for a step that is not positive |
| SensorFusion.SensorFusion.Update | C++/sensor_fusion.cpp:470-562 | Sequential or batch fusion of the buffer, which is then empty |
| SensorFusion.SensorFusion.UpdateSequential | C++/sensor_fusion.cpp:477-507 | Fuses the buffered measurements in order, skipping unknown sensors |
| SensorFusion.SensorFusion.UpdateBatch | C++/sensor_fusion.cpp:508-558 | Fuses the synchronized groups in order, each as one stacked reading |
| SensorFusion.SensorFusion.Correct | C++/sensor_fusion.cpp:490-505 | One Kalman update with the unique optimal gain |
| SensorFusion.SensorFusion.FusedCovariance | C++/sensor_fusion.cpp:604-606 | The 9 by 9 covariance that is handed out is symmetric and positive definite |
| SensorFusion.BlockIsCovariance | C++/sensor_fusion.cpp:604-606 | Every leading block of a covariance is a covariance |
| SensorFusion.SensorFusion.Reset | C++/sensor_fusion.cpp:613-634 | Back to the initial estimate and an empty buffer |
| Localization.EveryRunKeepsCovariance | C++/localization.cpp:149-558 | In every state reached by predict and the three updates the covariance is symmetric and positive definite, for any noise parameters, zero included |
| Localization.NoiseReachesErased | C++/localization.cpp:268-356 | The transition can be singular, but whatever it erases meets the gyro-bias noise |
| Localization.ErasedDirection | C++/localization.cpp:268-351 | A direction that the transition erases has a gyro-bias component |
| Localization.OperationKeepsCovariance | C++/localization.cpp:210-558 | Each operation keeps the covariance a covariance |
| Localization.UpdateNeverAddsUncertainty | C++/localization.cpp:366-558 | A GPS, IMU or lidar update makes no direction of the state more uncertain |
| Localization.TransitionIsSingularExactly | C++/localization.cpp:268-351 | The transition erases some nonzero direction if and only if the addition to the roll column cancels the one on its diagonal |
| LocalizationEffects.StartsAtPose | C++/localization.cpp:149-166 | The localizer starts at the given pose, with wrapped angles, at rest and without bias |
| LocalizationEffects.UncertaintyByGroup | C++/localization.cpp:167-197 | How uncertain each group of states starts, and how much noise a step adds to it; nothing is correlated |
| LocalizationEffects.AgreeingReadingKeepsState | C++/localization.cpp:366-558 | A fix, an orientation or a pose that agrees with the state, the yaw up to whole turns, does not move it |
| LocalizationEffects.UpdatePulls | C++/localization.cpp:411-429 | No update leaves more of the innovation than there was, in units of the variances |
| LocalizationEffects.FixPullsPosition | C++/localization.cpp:366-432 | A GPS fix leaves the position no farther from what it reads |
| LocalizationEffects.VarianceFollowsFix | C++/localization.cpp:374-409 | The variance grows with the accuracy figure, in proportion from 0.1 on and constant below, and a better fix has the smaller one |
| LocalizationEffects.PredictionMoves | C++/localization.cpp:243-266 | A prediction moves the position along the velocity and leaves the biases alone |
| LocalizationEffects.TransitionIsDerivative | C++/localization.cpp:243-351 | The transition is the derivative of the motion by position, velocity and the biases, acceleration and rates following the corrected biases |
| Angles.NormalizeAngle | C++/localization.cpp:42-50 | Terminates for every real angle, and computes the wrapped angle |
| Angles.WrappedIsSameAngle | C++/localization.cpp:42-50 | Wrapping adds whole turns, none to an angle in range |
| Angles.WrappedIsCanonical | C++/localization.cpp:42-50 | Angles that differ by whole turns wrap to the same angle, except that -pi and pi stand for one another |
| Localization.EKFLocalizer.constructor | C++/localization.cpp:149-204 | The initial estimate, with normalized angles |
| Localization.EKFLocalizer.Predict | C++/localization.cpp:208-360 | Moves the estimate for a time step in (0, 1], and nothing otherwise; keeps the covariance |
| Localization.EKFLocalizer.UpdateGps | C++/localization.cpp:366-432 | Position update with the variance of the fix type; keeps the covariance |
| Localization.EKFLocalizer.UpdateImu | C++/localization.cpp:439-493 | Orientation update with a wrapped yaw innovation; keeps the covariance |
| Localization.EKFLocalizer.UpdateLidar | C++/localization.cpp:501-558 | Pose update with a wrapped yaw innovation; keeps the covariance |
| Localization.EKFLocalizer.Correct | C++/localization.cpp:411-429 | The shared Kalman update |
| RadarAssociation.Associate | C++/radar_processing (1).cpp:223-273 | The chosen pairs are a stable matching of the pairs inside the gate |
| RadarAssociation.AssociationMeans | C++/radar_processing (1).cpp:223-273 | Only tracks that are not lost are linked, below the threshold, and every such pair below it is linked or beaten by a link of its track or detection that is no farther |
| RadarAssociation.Greedy | C++/radar_processing (1).cpp:257-273 | Taking the closest free pair first gives a stable matching: one to one, and every candidate conflicts with a chosen pair that is no farther apart |
| RadarAssociation.Candidates | C++/radar_processing (1).cpp:235-256 | Exactly the pairs inside the gate, lost tracks excluded |
| RadarAssociation.AtLeastHalf | C++/radar_processing (1).cpp:223-273 | Any one-to-one set of gated pairs has at most twice as many pairs |
| RadarAssociation.StableMatchingIsUnique | C++/radar_processing (1).cpp:223-273 | With distinct distances the association does not depend on the sort |
| RadarTracker.StepKeeps | C++/radar_processing (1).cpp:55-98 | One call keeps every track, adds at most one hit to each, and confirms by the number of hits alone; no track ever coasts or is deleted, because misses are not counted |
| RadarTracker.EveryRunKeeps | C++/radar_processing (1).cpp:55-98 | In every reachable state the ids are the numbers handed out so far, never reused, and a track is confirmed exactly when it has at least max(2, min_hits_to_confirm) hits |
| RadarTracker.StepKeepsTime | C++/radar_processing (1).cpp:150-198 | A matched track takes the time of its detection, any other moves on by a positive time step; age counts such frames |
| RadarTracker.UsableRanges | C++/radar_processing (1).cpp:101-131 | The ranges that the filter lets through, both signs of angles and range rate included |
| RadarTracker.HitsAreConserved | C++/radar_processing (1).cpp:343-354 | One call adds one hit per valid detection, except for links whose track could not be updated |
| RadarTracker.DetectionsAreShared | C++/radar_processing (1).cpp:85-96 | Each valid detection is linked to one track or starts exactly one |
| RadarProcessor.RadarProcessor.constructor | C++/radar_processing (1).cpp:37-51 | Starts without tracks, ids from zero |
| RadarProcessor.RadarProcessor.Filter | C++/radar_processing (1).cpp:101-131 | Keeps exactly the usable detections, in order |
| RadarProcessor.RadarProcessor.PredictTracks | C++/radar_processing (1).cpp:150-198 | Ages every track for a positive time step |
| RadarProcessor.RadarProcessor.AssociateDetections | C++/radar_processing (1).cpp:208-276 | Links tracks and detections by a stable matching inside the gate |
| RadarProcessor.RadarProcessor.UpdateTracks | C++/radar_processing (1).cpp:279-356 | Each linked, solvable track gets exactly one hit, the others are left alone |
| RadarProcessor.RadarProcessor.ManageTracks | C++/radar_processing (1).cpp:359-410 | Deletes and coasts exactly by state and miss streak |
| RadarProcessor.RadarProcessor.InitializeTracks | C++/radar_processing (1).cpp:85-96 | One new track, with the next id, for every detection not associated |
| RadarProcessor.RadarProcessor.GetConfirmedTracks | C++/radar_processing (1).cpp:413-428 | Exactly the confirmed tracks, in order of id |
| RadarProcessor.RadarProcessor.Process | C++/radar_processing (1).cpp:55-98 | One frame is one step of the lifecycle machine and keeps its invariant; returns the confirmed tracks |
| IncidentLog.EveryRunVerifies | cybersecurity/intrusion_detection/incident_logger.py:129-222 | Any run of log, note and restart from a missing file leaves a file that verifies and a logger that remembers its end |
| IncidentLog.SameTipSameLog | cybersecurity/intrusion_detection/incident_logger.py:228-267 | Two verified logs with the same tip hash hold the same records, or two different payloads in them have one hash, or a payload in them hashes to the marker of the empty chain; nothing is assumed of the hash |
| IncidentLog.IntactMeansChained | cybersecurity/intrusion_detection/incident_logger.py:228-267 | A log verifies exactly when every line parses and record i has number i + 1, points at its predecessor and carries its own hash |
| IncidentLog.LoadedIsTheEnd | cybersecurity/intrusion_detection/incident_logger.py:129-144 | Loading an intact file finds its last number and hash |
| IncidentLog.IdsAreUnique | cybersecurity/intrusion_detection/incident_logger.py:156-222 | No two records of a consistent log share an id, when different numbers are rendered differently |
| IncidentLog.StepAppends | cybersecurity/intrusion_detection/incident_logger.py:156-222 | Each incident or note is one more record with its content, and nothing is rewritten; a note goes to the latest record of its id and repeats its notes |
| IncidentLog.EveryFaultIsListed | cybersecurity/intrusion_detection/incident_logger.py:228-267 | Every record adds its line once for each condition that it breaks, whatever comes before and behind |
| IncidentLog.FaultsOfRecord | cybersecurity/intrusion_detection/incident_logger.py:240-262 | once each for a wrong number, a wrong predecessor hash and a wrong own hash |
| IncidentLog.LoadedStops | cybersecurity/intrusion_detection/incident_logger.py:129-144 | Nothing behind a line that does not parse is read |
| IncidentLog.IncidentLogger.LoadExistingChain | cybersecurity/intrusion_detection/incident_logger.py:129-144 | Reads the end of the file up to the first bad line |
| IncidentLog.IncidentLogger.LogIncident | cybersecurity/intrusion_detection/incident_logger.py:156-199 | Appends the next record of the chain |
| IncidentLog.IncidentLogger.AddNote | cybersecurity/intrusion_detection/incident_logger.py:201-222 | Appends a note to the incident it names, and nothing for an unknown id |
| IncidentLog.IncidentLogger.VerifyChain | cybersecurity/intrusion_detection/incident_logger.py:228-267 | Succeeds exactly on intact files, and otherwise lists every broken condition by line, up to a line that does not parse |
| IncidentLog.NoFaults | cybersecurity/intrusion_detection/incident_logger.py:228-267 | The list of faults is empty exactly for an intact file |
| AuditLog.EveryRunVerifies | cybersecurity/authentication/audit_log.py:136-180 | Any run of logging and restarting, one call at a time, leaves a log that verifies and holds exactly the accepted entries; a refused oversize entry leaves no trace |
| AuditRace.VerifiesExactly | cybersecurity/authentication/audit_log.py:136-180 | With any number of threads, whose calls read the tail hash before they take the lock, the log holds what was written in order, and verifies if and only if each entry points at the tail when it is written |
| AuditRace.OverlapBreaks | cybersecurity/authentication/audit_log.py:136-180 | Calls that do not overlap keep the log verified, and a verified log had none that overlap, unless the hash collides on its events or one of them hashes to the genesis hash |
| AuditRace.TwoCallsRace | cybersecurity/authentication/audit_log.py:149-180 | Two overlapping calls break the log, whatever they record |
| AuditLog.SameTipSameLog | cybersecurity/authentication/audit_log.py:233-252 | Two verified logs with the same tip hash hold the same events, although entries carry no numbers, or two different events in them have one hash, or an event in them hashes to the genesis hash; nothing is assumed of the hash |
| AuditLog.VerifiedMeansChained | cybersecurity/authentication/audit_log.py:233-252 | A log verifies exactly when every line parses, carries the hash of its event, and points at the hash of the event before it |
| AuditLog.AppendVerifies | cybersecurity/authentication/audit_log.py:149-180 | An entry with its own hash that points at the tail hash keeps a verified log verified, and becomes its last event |
| AuditLog.TailHashStops | cybersecurity/authentication/audit_log.py:107-124 | The tail hash is read up to the first line that does not parse |
| AuditLog.AuditLogger.constructor | cybersecurity/authentication/audit_log.py:86-127 | Remembers the last hash of the file |
| AuditLog.AuditLogger.LogEvent | cybersecurity/authentication/audit_log.py:136-180 | Appends the entry or refuses it; the counter moves either way |
| AuditLog.AuditLogger.VerifyChain | cybersecurity/authentication/audit_log.py:233-252 | The verdict of the scan, an exception on a line that does not parse |
| SecretsManager.EveryRunRefines | cybersecurity/encryption/secrets_manager.py:111-223 | Over every run the store shows exactly the plain map that the operations describe, and its two indexes stay inverse to one another |
| SecretsManager.StepRefines | cybersecurity/encryption/secrets_manager.py:111-223 | Each operation does to the plain map what it says; rotating without a value and rotating the key-encryption key change nothing visible |
| SecretsManager.MixedStateLosesNothing | cybersecurity/encryption/secrets_manager.py:215-217 | At any point of the re-wrap loop every secret opens, under the new key if its record is done and under the old one if not |
| SecretsManager.KekIsReplaced | cybersecurity/encryption/secrets_manager.py:204-223 | Rotating the key-encryption key replaces it, wraps every data key under the new one, and keeps every ciphertext, name and version |
| SecretsManager.KekRefines | cybersecurity/encryption/secrets_manager.py:204-223 | and keeps every value |
| SecretsManager.SealedUnderFreshKey | cybersecurity/encryption/secrets_manager.py:111-198 | Storing and rotating seal the value under the new data key, as version one or the next, and touch no other record |
| SecretsManager.ReloadRestores | cybersecurity/encryption/secrets_manager.py:87-98 | Reloading the persisted records, in any order, restores both indexes |
| SecretsManager.SecretsManager.constructor | cybersecurity/encryption/secrets_manager.py:54-98 | Rebuilds both dictionaries from the records of the file, in order |
| SecretsManager.SecretsManager.StoreSecret | cybersecurity/encryption/secrets_manager.py:111-135 | Stores a new name, refuses a known one |
| SecretsManager.SecretsManager.GetSecret | cybersecurity/encryption/secrets_manager.py:137-146 | The value of the plain map, or a KeyError exactly for an unknown name |
| SecretsManager.SecretsManager.DeleteSecret | cybersecurity/encryption/secrets_manager.py:148-154 | Removes the name, or a KeyError |
| SecretsManager.SecretsManager.RotateSecret | cybersecurity/encryption/secrets_manager.py:174-198 | Re-encrypts under a new data key, with the new value or the old one |
| SecretsManager.SecretsManager.RotateKek | cybersecurity/encryption/secrets_manager.py:204-223 | Replaces the key and re-wraps every data key under it, the rest of each record unchanged; refuses a key that is not 32 bytes |
| SecretsManager.SecretsManager.RewrapAll | cybersecurity/encryption/secrets_manager.py:215-217 | The loop re-wraps each record exactly once |
| IdsPipeline.EveryRunConserves | cybersecurity/intrusion_detection/ids_engine.py:237-343 | Every interleaving of producers, workers, start and stop keeps the whole invariant below |
| IdsPipeline.NothingIsLost | cybersecurity/intrusion_detection/ids_engine.py:268-343 | Accepted events, as a multiset, are the processed ones, those in worker batches and those queued |
| IdsPipeline.NothingIsProcessedTwice | cybersecurity/intrusion_detection/ids_engine.py:268-349 | An event that the caller did not hand over itself is processed at most once |
| IdsPipeline.EveryCallCounts | cybersecurity/intrusion_detection/ids_engine.py:268-287 | The ingest calls for an event are the hand-overs of it by the caller, plus one if the engine numbered it |
| IdsPipeline.ProcessedAsSubmitted | cybersecurity/intrusion_detection/ids_engine.py:268-349 | No event is processed more often than it was numbered or handed over, a numbered event that is handed back included |
| IdsPipeline.QueueIsBounded | cybersecurity/intrusion_detection/ids_engine.py:147-148 | A positive bound on the queue holds in every run, sentinels included |
| IdsPipeline.PutIsAcceptedExactly | cybersecurity/intrusion_detection/ids_engine.py:293-312 | A pending put is accepted exactly when there is no bound or the queue is below it; otherwise nothing arrives and the refusal is one more to count |
| IdsPipeline.BatchIsProcessedWhenFull | cybersecurity/intrusion_detection/ids_engine.py:317-334 | A batch is processed as soon as it is full and not before |
| IdsPipeline.LeavingWorkerFlushes | cybersecurity/intrusion_detection/ids_engine.py:319-336 | On a sentinel or the stop flag a worker processes what it has and leaves |
| IdsPipeline.WorkersAreCounted | cybersecurity/intrusion_detection/ids_engine.py:237-249 | Every start that finds no worker asks for the configured number of workers, and nothing else does |
| IdsPipeline.CallsAreCounted | cybersecurity/intrusion_detection/ids_engine.py:281-312 | Once the ingest calls have returned, each was accepted or counted as dropped |
| IdsPipeline.WorkersLeaveNothingBehind | cybersecurity/intrusion_detection/ids_engine.py:251-343 | When all workers are gone their batches are empty, and what was not processed is exactly the queued tail of the arrivals; which tail that is, IdsShutdown.StopLeavesExactly tells from the state at the stop |
| IdsPipeline.OneWorkerKeepsOrder | cybersecurity/intrusion_detection/ids_engine.py:317-343 | An engine that has one worker at a time processes in arrival order, restarts included |
| IdsPipeline.InOrderStep | cybersecurity/intrusion_detection/ids_engine.py:317-343 | Each of several workers processes exactly what it took from the queue, in that order |
| IdsPipeline.FifoStep | cybersecurity/intrusion_detection/ids_engine.py:268-343 | What was taken, then what is queued, is what arrived |
| IdsPipeline.BacklogIsBounded | cybersecurity/intrusion_detection/ids_engine.py:329-332 | No worker ever holds more events than one batch |
| IdsShutdown.StopLeavesExactly | cybersecurity/intrusion_detection/ids_engine.py:251-343 | Until the engine is started again, producers and further stops included: with k workers blocked on the queue when the flag is set, the workers take every event accepted before the flag except those behind the first k queued items, and these stay queued; so the events accepted before the flag are all processed if and only if there are none behind |
| IdsShutdown.QuietStopLeaves | cybersecurity/intrusion_detection/ids_engine.py:251-343 | If nothing is put meanwhile, those events are all that is still queued |
| IdsShutdown.StopCanFinish | cybersecurity/intrusion_detection/ids_engine.py:251-343 | From every state with the flag set all workers can reach their end by their own steps |
| IdsShutdown.LateEventIsLeft | cybersecurity/intrusion_detection/ids_engine.py:281-312 | A run in which an event accepted after the flag is left, although none accepted before it is |
| IdsShutdown.StopLeavesAnEvent | cybersecurity/intrusion_detection/ids_engine.py:251-262 | A run in which a stop of the one worker leaves an event that was accepted before it |
| IdsShutdown.StaleSentinelKillsRestart | cybersecurity/intrusion_detection/ids_engine.py:237-262 | After stop and start the engine can be running with no worker left and an accepted event queued |
| IdsShutdown.DeadUntilStopped | cybersecurity/intrusion_detection/ids_engine.py:237-262 | Such an engine processes nothing until it is stopped again, whatever else happens |
| IdsShutdown.KeepsWorkersExactly | cybersecurity/intrusion_detection/ids_engine.py:317-343 | A running engine keeps its live workers in every continuation up to the next stop if and only if no sentinel is in its queue |
| IdsShutdown.CleanKeepsWorkers | cybersecurity/intrusion_detection/ids_engine.py:317-343 | Without a sentinel in the queue no continuation up to the next stop loses a live worker, and none puts a sentinel |
| IdsShutdown.SentinelEnds | cybersecurity/intrusion_detection/ids_engine.py:317-343 | A sentinel in the queue can end any one of the live workers of a running engine |
| AlertLifecycle.EveryRunKeeps | cybersecurity/intrusion_detection/alert_manager.py:163-293 | The invariant holds after every interleaving of callers and escalators |
| AlertManager.DedupIsExact | cybersecurity/intrusion_detection/alert_manager.py:195-221 | Consecutive raises of a fingerprint share their alert exactly when the second comes within the window of the first |
| AlertManager.EveryRaiseIsCounted | cybersecurity/intrusion_detection/alert_manager.py:195-221 | The counts of the alerts add up to raised plus deduplicated, each alert counts its own raises, and the index points to the newest alert of a fingerprint |
| AlertManager.EveryStatusIsReached | cybersecurity/intrusion_detection/alert_manager.py:97-109 | Every status was reached from NEW by allowed transitions, and resolved_at is set exactly in the two absorbing states |
| AlertManager.AbsorbedForGood | cybersecurity/intrusion_detection/alert_manager.py:97-109 | Nothing leaves an absorbing state |
| AlertManager.AllowedExactly | cybersecurity/intrusion_detection/alert_manager.py:97-109 | From a status that is not absorbing every other is allowed, except back to new and from escalated to acknowledged |
| AlertManager.TransitionStamps | cybersecurity/intrusion_detection/alert_manager.py:268-284 | A granted transition stamps the update, the first acknowledgement only, and the resolution, and changes nothing else |
| AlertManager.NoYoungAlertIsEscalated | cybersecurity/intrusion_detection/alert_manager.py:163-172 | In every run the escalator moves only alerts that were new and at least the escalation time old at a snapshot before |
| AlertManager.SnapshotIsExact | cybersecurity/intrusion_detection/alert_manager.py:163-170 | A snapshot lists exactly these alerts |
| AlertManager.ResolvedCounter | cybersecurity/intrusion_detection/alert_manager.py:235-240 | The resolved counter is the number of resolved alerts plus the repeated requests, so it is right exactly when nobody resolved an alert twice |
| AlertManager.NewUntilLeftNew | cybersecurity/intrusion_detection/alert_manager.py:268-293 | An alert that was new at some moment of a run is new later exactly when nothing else was granted for it in between |
| AlertManager.EscalatorOvertakesExactly | cybersecurity/intrusion_detection/alert_manager.py:163-172 | Whoever interrupts, the escalator finds a snapshot entry no longer new exactly when a transition was granted since the snapshot, and moves it all the same exactly when a caller's request acknowledged or investigated it since and nothing was granted after that |
| AlertManager.EscalatorOvertakesOperator | cybersecurity/intrusion_detection/alert_manager.py:163-172 | A run in which an alert acknowledged after the snapshot is escalated all the same, without being counted |
| AlertManager.ResolvingTwiceCountsTwo | cybersecurity/intrusion_detection/alert_manager.py:235-240 | A run in which one alert is counted as resolved twice |
| AlertManager.AlertManager.RaiseAlert | cybersecurity/intrusion_detection/alert_manager.py:178-226 | Absorbs a duplicate or opens an alert, and records it as the latest of its fingerprint |
| AlertManager.AlertManager.Transition | cybersecurity/intrusion_detection/alert_manager.py:268-293 | Grants exactly the allowed transitions and repeats, with their time stamps |
| AlertManager.AlertManager.TransitionById | cybersecurity/intrusion_detection/alert_manager.py:259-266 | Refuses an unknown id |
| AlertManager.AlertManager.ResolveAlert | cybersecurity/intrusion_detection/alert_manager.py:235-240 | A request and, when granted, the counter |
| AlertManager.AlertManager.MarkFalsePositive | cybersecurity/intrusion_detection/alert_manager.py:242-247 | The same for false positives |
| AlertManager.AlertManager.EscalateAlert | cybersecurity/intrusion_detection/alert_manager.py:249-254 | The same for manual escalation |
| AlertManager.AlertManager.EscalateStaleAlerts | cybersecurity/intrusion_detection/alert_manager.py:163-172 | A pass that nobody interrupts escalates exactly the stale new alerts and changes no other |
| SessionManager.EveryRunIsValid | cybersecurity/authentication/session_manager.py:70-216 | In every reachable state the id map and the per-user sets agree, no set is empty, no user exceeds max(1, max_sessions_per_user) and no revoked session is left |
| SessionManager.GoneForGood | cybersecurity/authentication/session_manager.py:208-216 | A session that has left the registry never comes back |
| SessionManager.CreateEvictsOldest | cybersecurity/authentication/session_manager.py:194-206 | What the cap evicts belongs to the same user, is no newer than any session of that user that stays, and is evicted only when the cap is reached |
| SessionManager.LivesForItsLifetime | cybersecurity/authentication/session_manager.py:70-106 | A session expires exactly its lifetime after its creation, the default where none or zero is asked for, and is idle exactly a timeout after its last activity |
| SessionManager.LifetimeIsFixed | cybersecurity/authentication/session_manager.py:70-216 | Over every run nothing but the last activity of a session changes: no use extends its lifetime |
| SessionManager.CapIsKeptExactly | cybersecurity/authentication/session_manager.py:194-206 | After a creation the user has no more sessions than the configured cap if and only if the cap is at least one; below that, exactly the new session stays |
| SessionManager.CreateKeepsOthers | cybersecurity/authentication/session_manager.py:98-101 | Other users' sessions are untouched |
| SessionManager.SessionManager.CreateSession | cybersecurity/authentication/session_manager.py:70-106 | Evicts the oldest sessions as needed and registers the new one; a zero lifetime means the default |
| SessionManager.SessionManager.EnforceMaxSessions | cybersecurity/authentication/session_manager.py:194-206 | Evicts exactly as many sessions as needed, oldest first |
| SessionManager.SessionManager.OldestFirst | cybersecurity/authentication/session_manager.py:198-202 | The ids as a permutation in order of creation |
| SessionManager.SessionManager.Evict | cybersecurity/authentication/session_manager.py:208-216 | Removes a session from both indexes, and its user with the last one |
| SessionManager.SessionManager.GetSession | cybersecurity/authentication/session_manager.py:108-123 | Returns a session exactly when it is registered, not expired and not idle; otherwise it is registered no more |
| SessionManager.SessionManager.DestroySession | cybersecurity/authentication/session_manager.py:125-133 | Removes the session, and tells whether it was there |
| SessionManager.SessionManager.DestroyAllForUser | cybersecurity/authentication/session_manager.py:135-140 | Removes every session of the user and no other, and returns their number |
| SessionManager.SessionManager.CleanupExpired | cybersecurity/authentication/session_manager.py:152-169 | Removes exactly the expired and idle sessions, and returns their number |
| CosineScore.ScoreIsBounded | cybersecurity/authentication/biometric_auth.py:70-78 | Every score lies between -1 and 1, for vectors of any length |
| CosineScore.LowestScoreIsOpposite | cybersecurity/authentication/biometric_auth.py:70-78 | The score is -1 exactly for vectors that point exactly opposite ways |
| CosineScore.HighestScoreIsAligned | cybersecurity/authentication/biometric_auth.py:70-78 | The score is 1 exactly for vectors that point exactly the same way |
| CosineScore.ScoreIsCosine | cybersecurity/authentication/biometric_auth.py:70-78 | Times both lengths the score is the inner product, in either order; it is zero for a zero vector or different lengths |
| Biometric.EnrolledIsRecognized | cybersecurity/authentication/biometric_auth.py:121-234 | Right after an enrolment the same embedding verifies its subject, and is identified, with score 1, whatever else is enrolled |
| Biometric.OthersAreIgnored | cybersecurity/authentication/biometric_auth.py:182-190 | Templates of another modality, or for verification of another subject, make no difference |
| Biometric.AttemptMeans | cybersecurity/authentication/biometric_auth.py:203-234 | An attempt succeeds exactly when some eligible template reaches the threshold; it fails its assertion exactly when there are eligible templates and all point exactly opposite to the candidate |
| Biometric.AssertionCanFail | cybersecurity/authentication/biometric_auth.py:203-211 | One enrolled number fails the assertion for the opposite number |
| Biometric.BiometricAuthenticator.Authenticate | cybersecurity/authentication/biometric_auth.py:156-234 | Reports a best eligible template with its score, or why there is none |
| Biometric.BiometricAuthenticator.Best | cybersecurity/authentication/biometric_auth.py:203-209 | The loop finds a template of maximal score, and none exactly when all scores are -1 |
| Biometric.BiometricAuthenticator.Candidates | cybersecurity/authentication/biometric_auth.py:182-190 | Exactly the templates of the modality and, for verification, of the subject |
| Biometric.EveryRunIsIndexed | cybersecurity/authentication/biometric_auth.py:121-259 | After any run of enrolments and deletions every template is in its slot exactly once, and no slot or subject is empty |
| Biometric.BiometricAuthenticator.Enroll | cybersecurity/authentication/biometric_auth.py:121-151 | Adds the template at the end of its slot, and refuses an empty embedding |
| Biometric.BiometricAuthenticator.DeleteTemplate | cybersecurity/authentication/biometric_auth.py:236-249 | Removes the template from both levels, and empty levels with it |
| Biometric.BiometricAuthenticator.DeleteAllForSubject | cybersecurity/authentication/biometric_auth.py:251-259 | Removes every template of the subject and no other, and returns their number |
| Firmware.ParseUndoesPack | cybersecurity/encryption/firmware_validation.py:200-216 | Parsing a packed header gives back its fields, whatever follows it |
| Firmware.PackUndoesParse | cybersecurity/encryption/firmware_validation.py:200-216 | Packing a parsed header gives back its 20 bytes |
| Firmware.HeaderLayout | cybersecurity/encryption/firmware_validation.py:195-216 | The place of every header field, words big-endian; only a short image or another magic is refused |
| Firmware.WordRoundTrip | cybersecurity/encryption/firmware_validation.py:41-42 | Decoding an encoded 32-bit word gives it back |
| Firmware.BytesRoundTrip | cybersecurity/encryption/firmware_validation.py:41-42 | Encoding four decoded bytes gives them back |
| Firmware.BuildThenTakeApart | cybersecurity/encryption/firmware_validation.py:235-264 | A built image comes apart into the payload and signature it was built from; a signature is found exactly when at least 96 bytes were appended |
| Firmware.BuildsExactly | cybersecurity/encryption/firmware_validation.py:346-367 | An image can be built exactly when all fields fit their bytes and words |
| Firmware.BuiltIsAccepted | cybersecurity/encryption/firmware_validation.py:222-312 | A signed image is accepted exactly when its signature verifies for its payload, its version is no downgrade and its digest is not banned |
| Firmware.RequiredMeansSigned | cybersecurity/encryption/firmware_validation.py:238-262 | Where a signature is required, only a signed image with its signature in range is accepted, and none that the trusted key does not verify |
| Firmware.UnsignedIsAcceptedExactly | cybersecurity/encryption/firmware_validation.py:238-300 | An image without a signature is accepted exactly when none is required, its payload fits, its version is no downgrade and its digest is not banned |
| Firmware.NeverDowngraded | cybersecurity/encryption/firmware_validation.py:319-329 | Over any run of installations of accepted images no ECU goes back to an older version |
| Firmware.SignatureCoversPayloadOnly | cybersecurity/encryption/firmware_validation.py:222-312 | Of two signed images with the same payload and signature, where one is accepted the other is accepted exactly if its version is no downgrade for the ECU it names, whatever else differs in the headers |
| Firmware.RelabelledImage | cybersecurity/encryption/firmware_validation.py:222-312 | The same for images built from one payload and signature under two ECUs and versions |
| Firmware.RelabelledIsAccepted | cybersecurity/encryption/firmware_validation.py:222-312 | Two such images that differ in the version and are both accepted |
| Firmware.AtLeastIsTotalOrder | cybersecurity/encryption/firmware_validation.py:327-329 | The version comparison is a total order |
| Firmware.FirmwareValidator.ValidateImage | cybersecurity/encryption/firmware_validation.py:222-312 | Accepts exactly the acceptable images, with no errors, and reports each other code and each complaint exactly when it applies, an unsigned image where a signature is required among them |
| Firmware.FirmwareValidator.CheckSignature | cybersecurity/encryption/firmware_validation.py:238-262 | The signature stage: its verdict and its complaint |
| Firmware.FirmwareValidator.VerifySignature | cybersecurity/encryption/firmware_validation.py:314-317 | True exactly when no present signature fails: an image without one passes |
| Firmware.FirmwareValidator.AddKnownBadHash | cybersecurity/encryption/firmware_validation.py:339-340 | Bans one more digest |
| Firmware.FirmwareValidator.Install | cybersecurity/encryption/firmware_validation.py:342-343 | Records the version exactly when the image was accepted |
| Lockout.LockoutBound | cybersecurity/authentication/user_authentication.py:191-212 | In any run of wrong passwords without a reset, failed check k of authenticate comes at least (k - max_attempts) lockout durations after the one that first locked the account |
| Lockout.NextFailureWaits | cybersecurity/authentication/user_authentication.py:261-286 | From the threshold on, consecutive failed checks of authenticate are a full lockout apart |
| Lockout.GuessesInWindow | cybersecurity/authentication/user_authentication.py:191-212 | So in a window of time authenticate compares only so many passwords |
| Lockout.SucceedsExactly | cybersecurity/authentication/user_authentication.py:185-212 | A login succeeds exactly with the right password, on an active account, outside the lock, and clears the counter; a locked account refuses the right password too |
| Lockout.LockHolds | cybersecurity/authentication/user_authentication.py:185-286 | Until the lock ends, only a reset or a password change lifts it: in every run each login is locked out and the account does not change |
| Lockout.FailureLocks | cybersecurity/authentication/user_authentication.py:261-286 | A failed check counts one, and at the threshold locks the account for the full duration |
| Lockout.OtherCallsAreFree | cybersecurity/authentication/user_authentication.py:229-235 | Wrong passwords given to verify_credentials and change_password leave no trace on the account, and the lock stops none of them: a run compares one password per failed check of authenticate and one per other call |
| Lockout.OtherCallsAreUnbounded | cybersecurity/authentication/user_authentication.py:229-235 | So a single moment admits any number of those calls, on a locked account too |
| Lockout.AccountState | cybersecurity/authentication/user_authentication.py:261-286 | The account counts the failed checks of authenticate, and is locked for the full duration after the last one |
| Lockout.UserAuthenticator.Authenticate | cybersecurity/authentication/user_authentication.py:173-219 | The source's branches, in order, on the stored records |
| Lockout.UserAuthenticator.VerifyCredentials | cybersecurity/authentication/user_authentication.py:229-235 | Tells whether the password matches, and changes nothing |
| Lockout.UserAuthenticator.ChangePassword | cybersecurity/authentication/user_authentication.py:118-139 | Refuses a wrong password without a trace, and clears the counter and the lock otherwise |
| Lockout.UserAuthenticator.ResetPassword | cybersecurity/authentication/user_authentication.py:141-167 | Clears the counter and the lock |
| Lockout.UserAuthenticator.Fail | cybersecurity/authentication/user_authentication.py:261-286 | Counts the failure, and locks the account from the threshold on |

## Left out

- Floating point: rounding, NaN, infinities, eigenvalue clamping, casts to int that overflow.
- Trigonometry and attitude kinematics: rotation matrices, Euler rates, polar coordinates; the
  covariance results hold for any values of them.
- The vectors and covariances of radar tracks; only distances, bookkeeping and lifecycle are
  modelled. The iteration order of hash maps is arbitrary in the models.
- `clusterPoints`, ground-plane removal and the crop filters of the lidar processor: grouping by
  label and simple filters would only add easy members.
- SLAM, trajectory tracking, the header-only C++ components and the command line.
- Cryptography itself, file formats and JSON (a record whose evidence does not survive a round
  trip through JSON among them), environment configuration, I/O errors.
- The fused position, velocity and orientation that are handed out; of the fused state only the
  covariance block is modelled.
- SensorFusion.Run: the buffer's mutex makes each public method one step; its threads are not modelled.
- IdsPipeline.Next: what processing an event does besides being counted (rules, detectors,
  callbacks) is not modelled, and an exception in it is a processed event, as in the source.
- IdsPipeline.Run: the five-second limit on joining a worker is modelled by letting stop return
  at any time.
- AlertLifecycle.Next: correlation groups, notes and callbacks are not modelled.
- AlertManager.AlertManager.EscalateStaleAlerts: states a pass that nobody interrupts; passes
  interrupted between the snapshot and each transition are runs of the lifecycle machine.
- SessionManager.Registry: cached permissions, roles and client details are not modelled.
- Lockout.Called: registration, deactivation, PINs and the rules for new passwords are not modelled;
  a new password only shows in which later guesses match.
- AuditLog.EveryRunVerifies: states runs of one call at a time; overlapping calls are the runs of
  `AuditRace`.
- Biometric.BiometricAuthenticator.Authenticate: the threshold is a parameter, given by the
  caller or by the modality.
- Firmware.FirmwareValidator.ValidateImage: error messages are one value per kind of message, and
  digests are compared without letter case.
- IncidentLog.Find: queries by severity, time and text are not modelled.
- Permission checks, policies, classifiers, statistics and dashboards: lookups that would only add
  easy members.
