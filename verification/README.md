# KubeRA decision core: a verified model

KubeRA resizes the pods of Deployments vertically. This project models its decision
core in Dafny and proves what that core promises over whole runs.

* **Recommendation** (`Exponentials`, `Histogram`, `HistogramOrder`, `DecayTimes`,
  `DecayingHistogram`, `Recommending`, `Interleavings`, `Recommender`, `Targets`, `Usage`):
  decaying histograms that grow the weights of new samples and rescale now and then, per-pod
  deduplication, percentiles, margin, rounding and bounds. The fast form is shown to be the
  plain decayed multiset of samples, from which accuracy, monotonicity, halving per half-life
  and independence of order and of a common shift in time follow.
* **Planning** (`Resources`, `Planner`, `PodRuns`, `Settling`, `QosRuns`, `Convergence`, `OomRuns`):
  tolerance band, step caps, limit scaling, QoS rules and the OOM bump; what every run of
  plans keeps, that every run ends, where and how fast.
* **Recreation and admission** (`Webhook`): the memory shrink that cannot be done in place,
  and injection as the way out of it.
* **HPA coupling** (`Hpa`, `HpaAggregate`): request floors and the utilization the HPA sees,
  per container and in total.
* **Actuation** (`Cooldowns`, `Actuation`, `BumpRuns`, `PassProperties`, `ActuateAll`, `Folds`): the
  pass over pods and workloads, and one pod over passes, with the answers of the API server and of the rate limiter as
  arbitrary inputs.
* **Ownership** (`Ownership`): the gates before actuation, and which policy object manages a
  workload.
* **Across the stages** (`EndToEnd`), over the spec in `Api`.

Code that updates state is modelled by classes and loops, each proved against a function
of its inputs or of the old state; the properties are lemmas about those functions.

## How the source is read

* CPU is in millicores and memory in bytes, as non-negative integers without a 64-bit limit;
  times and durations are integer nanoseconds. Where the code computes in float64 (ratios,
  tolerance, weights, percentiles, means), the model uses exact integers and reals and truncates
  where the code truncates. Nothing is claimed about float rounding.
* The weight of a sample over time is any function that turns sums of times into products and
  grows; `Exponentials.Growth` shows that a constant factor per tick is one. The recommender is
  built from a factor per tick that doubles over a half-life of any number of ticks; the code's
  is 12 hours (`Recommending.DoublingEachTick` is the instance of one tick). `bucketFor` is the least bucket whose bound covers the value, which is what the
  ceiling of the logarithm means.
* The time 0 stands for the zero time, which the code uses for "no reference yet". What the
  histogram then does is `Histogram.Anchor`; `DecayTimes.DecaysExactly` says when that makes no
  difference. Independence of order and of interleaving is stated for readings of a key that
  do not start at the zero time, or all stay there, and never precede it.
* A pod has unique container names, and one that counts as Guaranteed has equal requests and
  limits (`PodRuns.Sound`); requests do not exceed limits (`Resources.Fits`). The API server
  enforces both. Each is shown to be kept by every step.
* The webhook writes memory limits in thousandths of a byte; the model keeps what reading
  them back in bytes gives, rounded up. Comparing a limit with a request in whole bytes gives
  the same verdict, since limits are not below requests.

## Where code and documentation part

* "The QoS class never changes" (docs/architecture.md:40-41): a plan can make it Guaranteed,
  exactly as `QosRuns.QosChangesExactly` says. Kubernetes refuses a resize that changes the
  class, so such a plan is rejected, which ends the pass (`PassProperties.FailedExactly`).
* "Returns nil when every bump is already at the cap" (internal/actuator/oom.go:52-53): with
  requests only controlled, a container at a memory limit below its cap gets a bump that changes
  nothing in every pass of the 15 minutes after a kill, instead of resizes:
  `BumpRuns.HandsOverExactly`, and `OomRuns.TrappedPod` for a concrete one.
* Each bump "should be followed by the request staying raised" (docs/benchmark-hpa-load-test.md:64):
  a bump stamps no cooldown, so once the fast path has nothing to do, the pass resizes the pod to
  its targets, down again if these are lower, and the same kill then bumps it again. Exactly when
  is `BumpRuns.BumpsAgainExactly`; `BumpRuns.BumpedAgainWithinTheLookback` is a concrete pod.
* A maximum is documented as the ceiling never sized above
  (api/v1alpha1/dynamicresource_types.go:100): an HPA floor is not clamped again, see
  `EndToEnd.FlooredInBoundsExactly`, and `EndToEnd.FloorPassesMaximum` for a concrete pod. The
  32Mi floor gives way to a smaller maximum.
* "A downward resize never brings the utilization HPA observes above target - headroom"
  (docs/dynamicresource.md:208): a container whose usage was not read is not floored, as happens
  when stored recommendations are used in a metrics gap
  (internal/controller/dynamicresource_controller.go:154-159); a headroom at or above the target
  switches the floor off; and of several utilization targets for one resource only the last is
  guarded. Exactly when all are protected is `HpaCoordination.AllProtectedExactly`;
  `HpaCoordination.GapIsNotFloored` is a concrete pod in a gap.
* A headroom of 0 is allowed by the schema but read as the default of 10:
  `HpaCoordination.NoHeadroomIsTen`.
* Cooldowns are not stamped when the API server rejects something in a pass:
  `PassProperties.UnstampedExactlyAfterRejection`, and two concrete visits in
  `PassProperties.RejectionDefeatsCooldown`.

## Model

| member | source | states |
|---|---|---|
| Resources.ClassifyQos | internal/actuator/plan.go:251-277 | the reported class when set, otherwise BestEffort iff no container has requests, Guaranteed iff every container has equal CPU and memory requests and limits |
| Planner.PlanPod | internal/actuator/plan.go:103-129 | the loop builds exactly the specified plan: BestEffort pods get none, changes follow container order, direction is Up iff some change raises a request |
| Planner.PlanOOMBump | internal/actuator/oom.go:54-96 | the loop builds exactly the specified bump plan for the named containers |
| PodRuns.ChangeFound | internal/actuator/plan.go:109-124 | with unique container names, a plan holds for each container exactly what was planned for it alone |
| PodRuns.StepIsPointwise | internal/actuator/resizer.go:55-71 | applying a plan by name changes each container as if it were alone, and nothing else of the pod |
| PodRuns.ScaleLimitBounds | internal/actuator/plan.go:207-211 | a scaled limit is never below its request, and equals it exactly when the scaled slack is under one unit |
| PodRuns.ResizeMovesTowardsTarget | internal/actuator/plan.go:131-163 | whatever the caps and the class, a resize never moves a request away from or past its target |
| PodRuns.BumpRaisesMemory | internal/actuator/oom.go:73-83 | a bump leaves CPU alone, never lowers memory and stays under the cap |
| PodRuns.BumpAmount | internal/actuator/oom.go:73-82 | memory goes to 1.5 times, or to the cap or an untouched limit below that |
| PodRuns.StepCapHolds | internal/actuator/plan.go:234-247 | no resize moves a request by more than the step percentage of its direction |
| PodRuns.LimitsKeepRatio | internal/actuator/plan.go:202-220 | after any resize or bump with limits controlled, a CPU limit keeps its ratio to the request up to one truncated unit; a memory limit stays exactly when that would not raise it, and keeps the ratio otherwise |
| PodRuns.LimitsOtherwise | internal/actuator/plan.go:180-201 | with requests only controlled limits are untouched, on a Guaranteed pod they equal the requests, and no absent limit is set |
| PodRuns.DirectionExactly | internal/actuator/plan.go:109-128 | the plan says Up exactly when applying it raises some request of the pod |
| PodRuns.StepKeepsShape | internal/actuator/plan.go:131-220 | a step keeps which requests and limits a container has, positive requests, and pinned limits |
| PodRuns.StepKeepsFit | internal/actuator/plan.go:184-220 | requests within limits stay within limits, in both modes |
| PodRuns.StepKeepsMemoryLimit | internal/actuator/plan.go:195-218 | one step never lowers a memory limit |
| PodRuns.StepKeepsSound | internal/actuator/plan.go:97-102 | a Guaranteed pod is Guaranteed after any step, resize or bump |
| QosRuns.GuaranteedForever | internal/actuator/plan.go:153-159 | over every run of resizes and bumps, with any targets and with modes and step sizes that may change from pass to pass, a Guaranteed pod stays Guaranteed |
| QosRuns.RunKeepsShape | internal/actuator/plan.go:202-220 | over every run: containers, names, and which requests and limits are set stay; requests stay positive and within limits; an absent limit stays absent |
| QosRuns.MemoryLimitsNeverShrink | internal/actuator/plan.go:215-217 | over every run, no memory limit of any pod decreases |
| QosRuns.StepKeepsMemorySlack | internal/actuator/plan.go:212-218 | with controlled limits, a memory limit above its request stays strictly above it |
| QosRuns.BurstableForever | internal/actuator/plan.go:251-277 | a Burstable pod with a container that lacks a request or limit, or has memory slack under limits controlled throughout, is Burstable after every run |
| Settling.UnmovedExactly | internal/actuator/plan.go:131-175 | no change is planned for a container exactly when it is settled or untargeted, or its memory is at the cap, stated on its quantities, the targets and the caps |
| QosRuns.CollapsesExactly | internal/actuator/plan.go:180-220 | the exact condition, on quantities known before the step, for a container to end with limits equal to requests |
| QosRuns.QosChangesExactly | internal/actuator/plan.go:97-102 | the documented "QoS class is preserved" holds for a Burstable pod if and only if not every container collapses; otherwise the class becomes Guaranteed |
| QosRuns.RunChangesExactly | internal/actuator/plan.go:97-102 | over a whole run the class of a Burstable pod changes if and only if some pass collapses every container; without a reported class the pod then ends Guaranteed |
| QosRuns.RequestsOnlyCanPin | internal/actuator/plan.go:184-192 | a concrete pod that capping at existing limits turns from Burstable to Guaranteed |
| QosRuns.CpuTruncationCanPin | internal/actuator/plan.go:207-211 | a concrete pod that truncating a CPU limit turns from Burstable to Guaranteed |
| Convergence.PlanShrinksDistance | internal/actuator/plan.go:103-175 | applying a non-nil plan strictly decreases the sum of distances to the targets |
| Convergence.RunsEnd | internal/actuator/plan.go:103-129 | for fixed targets the planner has nothing left after as many passes as that sum |
| Settling.WithinToleranceExactly | internal/actuator/plan.go:222-231 | in the band means: a distance of at most the tolerance times the current quantity, in both directions |
| Settling.SettledExactly | internal/actuator/plan.go:131-175 | no change is planned for a container if and only if it has a zero quantity, is inside the band, or both requests are stuck for a named reason |
| Convergence.RunsEndSettled | internal/actuator/plan.go:131-175 | where every run ends: each targeted container is settled in that sense |
| Convergence.GeometricDown | internal/actuator/plan.go:242-246 | after k capped steps down the value is at most max(target, (1-p)^k start + 1/p) and never below the target, truncation included |
| Convergence.GeometricUp | internal/actuator/plan.go:235-241 | the matching lower bound upward |
| Convergence.PassesAreSteps | internal/actuator/plan.go:150-157 | k passes that each change a container put its request exactly k capped steps on towards its reach (the target, an untouched limit below it, or where a Guaranteed pod holds memory), while the class is kept or makes no difference |
| Convergence.MovingRequestDecays | internal/actuator/plan.go:150-157 | the downward bound towards the reach for a pod under the planner |
| Convergence.MovingRequestGrows | internal/actuator/plan.go:150-157 | the upward bound towards the reach for a pod under the planner |
| Convergence.ReportedClassIsKept | internal/actuator/plan.go:251-254 | the class is kept over every run of passes for pods with a reported class and for Guaranteed ones |
| Convergence.RunsAreShort | internal/actuator/plan.go:103-175 | every run is short: something left to plan after k + 1 passes means that some request was more than k capped steps away, so the number of passes is logarithmic |
| OomRuns.OOMKilledContainers | internal/actuator/oom.go:37-49 | exactly the containers whose last termination was an OOM kill at most 15 minutes ago |
| OomRuns.BumpRaisesExactly | internal/actuator/oom.go:54-96 | a planned bump raises memory exactly when no untouched limit is in the way |
| OomRuns.BumpsAreLogarithmic | internal/actuator/oom.go:73-82 | a container takes more than k bumps only when its cap is more than 1.5^k times its memory |
| BumpRuns.ResizesExactly | internal/controller/actuation.go:109-185 | exactly when a pass resizes a pod, on quantities known before it: not recreated, infeasible or bumped, something unsettled, the cooldown of the direction over, the resize accepted |
| BumpRuns.BumpsAreBounded | internal/controller/actuation.go:109-185 | with no untouched limit below a cap, passes that bump, resize or do nothing, with any kills, targets and answers, make at most as many bumps as the containers had left and resizes gave back |
| BumpRuns.OnlyLoweringGivesBack | internal/actuator/plan.go:131-175 | a resize that lowers no memory, and raises none from a single byte, gives no bump back |
| BumpRuns.TrappedBumpsWhileRecent | internal/controller/actuation.go:150-170 | after any passes, a pass that sees the kill of a container with an untouched limit below its cap within the lookback wants to bump again and does not resize; one that sees no kill does not bump |
| BumpRuns.PassBumpsExactly | internal/controller/actuation.go:150-185 | while the same kills are recent, nothing killed is trapped and nothing was resized yet, a pass wants to bump exactly when fewer bumps were accepted than some killed container had left |
| BumpRuns.HandsOverExactly | internal/controller/actuation.go:150-185 | within the lookback of the same kills, the fast path hands over if and only if no killed container is trapped and enough bumps were accepted, whatever was refused in between |
| BumpRuns.NextWantsExactly | internal/controller/actuation.go:166-185 | after a pass that did not want to bump, the next one wants to exactly when the pass resized a killed container to below its cap |
| BumpRuns.BumpsAgainExactly | internal/controller/actuation.go:150-185 | once handed over, a pod is bumped again within the lookback if and only if some pass resizes it so |
| BumpRuns.BumpedAgainWithinTheLookback | internal/controller/actuation.go:150-185 | a concrete pod at its cap that is resized down after its kill and bumped again for the same kill |
| OomRuns.TrappedPod | internal/actuator/oom.go:73-82 | a concrete pod for which a bump is planned that changes nothing |
| Webhook.BlockedExactly | internal/actuator/recreate.go:33-53 | blocked means Guaranteed, with a memory target that is set, below its request, and further below than the tolerance |
| Webhook.OutOfBandGrows | internal/actuator/plan.go:222-231 | memory that grows away from a smaller target stays outside the tolerance band |
| Webhook.BlockedForever | internal/actuator/recreate.go:33-53 | a blocked pod stays blocked under every run of resizes to the same targets and OOM bumps, whatever the step sizes and modes of its passes |
| Webhook.ApplyTarget | internal/webhook/pod_webhook.go:142-163 | in place, the two resources of one container are set to the target with limits pinned or scaled; other containers are untouched |
| Webhook.Default | internal/webhook/pod_webhook.go:69-82 | the loop injects every container that has a target |
| Webhook.InjectionIsFixedPoint | internal/webhook/pod_webhook.go:69-81 | whatever the pod, an injected pod has no plan left for the same targets and is not blocked |
| Webhook.InjectionSetsRequests | internal/webhook/pod_webhook.go:143-161 | an injected container asks for its target exactly, where it asked for anything |
| Webhook.InjectionKeepsRatio | internal/webhook/pod_webhook.go:152-159 | the limit that injection writes equals the new request where it equalled the old one, and keeps its ratio to it up to one truncated unit otherwise |
| Webhook.InjectionLeavesTheRest | internal/webhook/pod_webhook.go:142-151 | what is not targeted, not requested, not limited, or neither CPU nor memory is left alone |
| Webhook.InjectionKeepsShape | internal/webhook/pod_webhook.go:142-163 | injection keeps which quantities are set, requests within limits, and pinned containers pinned |
| Webhook.InjectionKeepsGuaranteed | internal/webhook/pod_webhook.go:139-163 | a Guaranteed template gives a Guaranteed injected pod |
| EndToEnd.RecreationSettles | internal/actuator/recreate.go:27-53 | trap and exit together: never unblocked in place; the injected replacement is Guaranteed, unblocked, settled, and within the guard when the targets were floored |
| Histogram.BucketCovers | internal/recommender/histogram.go:53-62 | a value is in a bucket up to b exactly when the bound of b covers it |
| Histogram.RescaleKeepsMasses | internal/recommender/histogram.go:83-93 | rescaling leaves every bucket and the total proportional to the same masses |
| Histogram.ObserveRefines | internal/recommender/histogram.go:70-81 | one observation, with or without a rescale, adds one decayed sample; with the reference still unset, the earlier samples move to its time first |
| Histogram.HistRefines | internal/recommender/histogram.go:70-93 | after any observations at any times and in any order, with any number of rescales, one positive factor relates every bucket, and the total, to the plain decayed sums of the samples as the histogram dates them |
| Histogram.TotalWeightBounds | internal/recommender/histogram.go:70-93 | from the first sample on the total is at least 1 and at most n times 10^12 |
| Histogram.EmptyMeansNoSample | internal/recommender/histogram.go:95-97 | the emptiness test means exactly that no sample was seen |
| Histogram.AnchorSplits | internal/recommender/histogram.go:71-73 | the histogram dates samples at the zero time as the first later one, and all others as they are |
| Histogram.PercentileIsAnchored | internal/recommender/histogram.go:70-114 | always, the percentile read is that of the plain decayed multiset of the samples as dated |
| Histogram.PercentileRefines | internal/recommender/histogram.go:101-114 | and that of the samples themselves, for every p, when the first is not at the zero time or all are |
| Histogram.PercentileAccuracy | internal/recommender/histogram.go:99-114 | for any observations, at least fraction p of the decayed weight is at or below the answer unless it is the last bucket; less than p is at or below the bound one bucket down |
| Histogram.FallbackUnreachable | internal/recommender/histogram.go:113 | for p up to 1 the scan always finds its bucket |
| Recommending.NextBound | internal/recommender/histogram.go:66-68 | consecutive bucket bounds differ by the factor 1.05 |
| Recommending.BucketsInUse | internal/recommender/recommender.go:26-32 | the buckets in use start at 10 millicores and at 10Mi, and there are 200 |
| Recommending.ShapesOk | internal/recommender/recommender.go:26-32 | with a growth that doubles over the half-life, the bounds and decay actually used meet what the histogram proofs need |
| HistogramOrder.PercentileIgnoresOrder | internal/recommender/histogram.go:70-114 | two histograms fed the same samples in any orders read the same percentile |
| HistogramOrder.PercentileMonotone | internal/recommender/histogram.go:53-114 | samples no larger at the same moments, whatever these are, never read a larger percentile |
| DecayTimes.PercentileIgnoresShift | internal/recommender/histogram.go:70-114 | moving all samples by the same time leaves every percentile as it was |
| DecayTimes.HalfLivesHalve | internal/recommender/histogram.go:23-31 | 2^n samples n half-lives older weigh as much as one, up to every bucket |
| DecayTimes.OldSamplesReadAsOne | internal/recommender/histogram.go:70-114 | among any other samples, 2^n samples n half-lives older read every percentile as one does |
| DecayTimes.DecaysExactly | internal/recommender/histogram.go:70-81 | for readings at given times, all percentiles of all values are those of the decayed multiset if and only if the first time is not the zero time or all are |
| DecayTimes.ZeroTimestampIsNotDecayed | internal/recommender/histogram.go:71-73 | on the CPU shape in use, two readings of which the histogram reads the wrong median |
| DecayingHistograms.DecayingHistogram.constructor | internal/recommender/histogram.go:44-51 | a new buffer is the empty histogram |
| DecayingHistograms.DecayingHistogram.Observe | internal/recommender/histogram.go:70-81 | the in-place update is the specified observation |
| DecayingHistograms.DecayingHistogram.Rescale | internal/recommender/histogram.go:86-93 | the in-place loop divides every bucket and the total and moves the reference time |
| DecayingHistograms.DecayingHistogram.Percentile | internal/recommender/histogram.go:101-114 | the scan over the running sum returns the specified percentile |
| Recommending.TakeHolds | internal/recommender/recommender.go:88-94 | one reading is taken exactly when it is newer than all earlier ones of its pod, and then adds one sample to each histogram |
| Recommending.FeedHolds | internal/recommender/recommender.go:74-95 | after any trace, the state of each key holds exactly its accepted readings and newest timestamps |
| Recommending.RecommendReadsAccepted | internal/recommender/recommender.go:99-111 | an answer is given exactly for keys with an accepted reading, and is the pair of percentiles of those readings |
| Interleavings.AcceptedPerPod | internal/recommender/recommender.go:88-91 | what a key accepts from a pod depends on that pod alone |
| Interleavings.RisingIgnoresRepeats | internal/recommender/recommender.go:72-73 | feeding a reading again changes nothing |
| Interleavings.FirstIsAccepted | internal/recommender/recommender.go:88-94 | a key accepts something exactly when it has a reading, and the first reading first |
| Interleavings.RecommendIgnoresInterleaving | internal/recommender/recommender.go:74-111 | the same per-pod streams in any two interleavings, with repeats, give the same answer for every key and percentile |
| Interleavings.RecommendMonotone | internal/recommender/recommender.go:74-111 | readings of one resource no larger at the same moments never give a larger answer for it, whatever the other resource does, and the same keys get one |
| Recommenders.ContainerState.Take | internal/recommender/recommender.go:88-94 | the in-place update of one state is the specified one |
| Recommenders.Recommender.constructor | internal/recommender/recommender.go:65-70 | a new recommender knows nothing, and its weights double over the half-life it is given |
| Recommenders.Recommender.StateFor | internal/recommender/recommender.go:78-86 | a missing state is created empty and shares nothing with the others |
| Recommenders.Recommender.Observe | internal/recommender/recommender.go:74-95 | one reading changes the state of its own key, as specified, and of no other |
| Recommenders.Recommender.Recommend | internal/recommender/recommender.go:99-111 | the answer is the specified one and nothing changes |
| TargetPipeline.RoundUpBounds | internal/controller/recommendation.go:195-203 | rounding goes up, by less than one step |
| TargetPipeline.TargetWithinBounds | internal/controller/recommendation.go:121-129 | a fresh target of a validated spec is within bounds; below the maximum it leaves the 10% margin (memory at least 32Mi), above the minimum it exceeds that by less than 10 millicores or 1Mi, and strictly between it is a whole number of these |
| TargetPipeline.SwitchedOffExactly | internal/controller/recommendation.go:109-115 | the first override of its name switches a container off |
| TargetPipeline.TargetExactly | internal/controller/recommendation.go:109-129 | after any trace, a container has a target exactly when it is not switched off and a reading of it was accepted, made of the configured percentiles of its accepted readings |
| TargetPipeline.TargetMonotone | internal/controller/recommendation.go:121-129 | margin, rounding, floor and bounds preserve order, in each resource on its own |
| TargetPipeline.PipelineMonotone | internal/controller/recommendation.go:115-137 | from readings to targets the whole pipeline is monotone, in each resource on its own |
| TargetPipeline.PipelineIgnoresInterleaving | internal/controller/recommendation.go:87-98 | targets do not depend on the order pods are listed in or on repeated reconciles |
| TargetPipeline.RunKeepsBounds | internal/controller/actuation.go:277-287 | requests within bounds stay within them over every run of bounded resizes and capped bumps |
| EndToEnd.FreshTargetsAreBounded | internal/controller/recommendation.go:121-137 | the targets of a recommendation pass are within the bounds of the spec |
| EndToEnd.FlooredInBoundsExactly | internal/controller/actuation.go:250-261 | flooring for the HPA keeps a target in bounds if and only if neither floor exceeds its maximum |
| EndToEnd.FloorPassesMaximum | internal/controller/actuation.go:250-261 | a concrete pod whose request a floor takes above its maximum |
| EndToEnd.ControllerKeepsBounds | internal/controller/recommendation.go:121-129 | requests that start in bounds stay there over every run of bumps and resizes to floored targets of any pass, as long as no floor exceeds its maximum |
| UsagePass.ReadingsExactly | internal/controller/recommendation.go:87-91 | what is fed is exactly the readings of all containers of all pods, each with its own pod, time, CPU and memory |
| UsagePass.FeedContinues | internal/controller/recommendation.go:87-91 | feeding one pass after a trace is feeding the longer trace |
| UsagePass.FeedAndTally | internal/controller/recommendation.go:84-98 | the nested loop feeds every reading in order and keeps one sum and count per container |
| UsagePass.MeanOf | internal/controller/recommendation.go:99-106 | the snapshot is the mean usage of each container read |
| UsagePass.MeanIsBetween | internal/controller/recommendation.go:99-106 | a mean lies between the readings of that container and resource |
| UsagePass.TargetsFor | internal/controller/recommendation.go:109-138 | exactly the containers that are not switched off and have readings get a target |
| UsagePass.ComputeRecommendations | internal/controller/recommendation.go:84-138 | one workload: recommender fed, mean usage and targets as specified |
| Api.FirstOverrideDecides | internal/controller/recommendation.go:173-180 | the first override of a name is found, and none is when there is none |
| Api.BoundsInForce | internal/controller/recommendation.go:182-193 | the bounds of each resource are those that this override sets, and of the spec otherwise |
| Api.BehaviorInForce | internal/actuator/plan.go:51-70 | steps, cooldowns, tolerance and mode: what is configured for a direction decides that direction alone, and the documented defaults hold elsewhere |
| Api.PercentilesInForce | internal/controller/recommendation.go:159-171 | each configured percentile reaches its own resource; 90 and 95 otherwise |
| Api.MaxMemoryBounds | internal/controller/actuation.go:277-287 | every named container gets the maximum of its override or of the spec |
| Api.ValidateBounds | internal/controller/dynamicresource_controller.go:263-287 | no error if and only if min is at most max in every pair of bounds; an error names the first bad pair |
| Api.BoundsOrdered | internal/controller/recommendation.go:182-193 | in a validated spec the bounds in force for any container are ordered |
| HpaCoordination.TargetUtilization | internal/coordination/hpa.go:69-95 | per resource, the last utilization target listed, or 0 |
| HpaCoordination.FloorIsLeast | internal/coordination/hpa.go:97-108 | the floor is the least request that keeps utilization within target - headroom: exactly the requests at or above it do |
| HpaCoordination.FloorExactly | internal/controller/actuation.go:248-262 | a target stays when its resource is not guarded or it is within the guard, and becomes the least request within the guard otherwise |
| HpaCoordination.FlooredByUsage | internal/controller/actuation.go:246-262 | flooring keeps the containers, and leaves those alone whose usage was not read |
| HpaCoordination.ScalingExactly | internal/controller/actuation.go:212-243 | the state is Scaling if and only if the HPA is not ignored, pausing is not off, and its replicas disagree or its last scale event is less than the settle time ago |
| HpaCoordination.WaitsExactly | internal/controller/actuation.go:212-243 | the same for every lookup, and when coordination fails or leaves the targets alone |
| HpaCoordination.AtMaxExactly | internal/controller/actuation.go:245-273 | the state is AtMaxVertical if and only if there are targets, all of them at a CPU maximum that is set, under an HPA that does not make the workload wait |
| HpaCoordination.HeadroomExactly | internal/controller/actuation.go:236-238 | the guard is the configured headroom below the target, or 10 |
| HpaCoordination.TargetTable.Coordinate | internal/controller/actuation.go:212-274 | the whole decision: ignored, unreadable, paused, or every target raised to its floors, with AtMaxVertical exactly when all CPU targets are at a non-zero maximum |
| HpaCoordination.TargetTable.RaiseEntry | internal/controller/actuation.go:248-262 | one target is raised to both floors |
| HpaCoordination.TargetTable.RaiseFloors | internal/controller/actuation.go:246-269 | the loop floors every target once and compares it with its maximum afterwards |
| HpaCoordination.FlooredIsSafe | internal/controller/actuation.go:249-262 | a floored target keeps every watched resource within the guard |
| HpaCoordination.LoweringIsSafe | internal/actuator/plan.go:131-247 | through band, step caps, limit capping and pinning: a request that a floored plan lowers still keeps usage within target - headroom |
| HpaCoordination.CoordinatedResizeIsSafe | internal/controller/actuation.go:203-210 | the same for coordination, planning and application of a whole pod |
| HpaCoordination.RunKeepsSafe | internal/controller/actuation.go:245-262 | once within the guard, a request stays so over every run of guarded passes and OOM bumps with the same usage |
| HpaCoordination.CoordinatedRunKeepsSafe | internal/controller/actuation.go:203-274 | and so over every run whose resizes use what coordination made of any targets, with bumps in between |
| HpaCoordination.ProtectsExactly | internal/coordination/hpa.go:97-108 | a utilization target is protected exactly when the one kept is above the headroom and not above it |
| HpaCoordination.AllProtectedExactly | internal/controller/actuation.go:203-274 | every target an HPA lists for a resource is protected for a container by coordination if and only if the usage of the container was read and the last listed target is the least and above the headroom |
| HpaCoordination.GapIsNotFloored | internal/controller/actuation.go:248-262 | a concrete pod that a metrics gap lets shrink below the request its HPA target asks for |
| HpaCoordination.NoHeadroomIsTen | internal/controller/actuation.go:236-238 | a headroom of 0 is read as 10 |
| EndToEnd.RunsEndNearGuard | internal/actuator/plan.go:131-175 | a run to floored targets, from wherever the pod starts, ends within the guard up to the tolerance, or held back by a zero quantity, a step of nothing or an untouched limit |
| EndToEnd.BandStaysBelowFloor | internal/actuator/plan.go:222-231 | a concrete request that stays below its floor inside the tolerance band |
| HpaCoordination.FloorKeepsMaxExactly | internal/controller/actuation.go:250-261 | a target within its maximum stays so exactly when the floor is |
| HpaAggregate.AggregateWithin | internal/controller/recommendation.go:99-106 | total usage over pods and containers against total requests is within target - headroom when every request is |
| HpaAggregate.AggregateStaysWithin | internal/controller/actuation.go:245-262 | and stays so when every pod goes through its own run of guarded passes |
| HpaAggregate.CoordinatedAggregateStaysWithin | internal/controller/actuation.go:203-274 | and so when every resize uses coordinated targets |
| Cooldowns.CooldownTracker.Allow | internal/actuator/resizer.go:118-123 | allowed exactly when never stamped or at least the cooldown ago |
| Cooldowns.CooldownTracker.Record | internal/actuator/resizer.go:126-133 | stamps one workload and direction and nothing else |
| Actuation.PodResizeInfeasible | internal/controller/actuation.go:327-334 | some pending resize condition has the reason Infeasible |
| Actuation.PlanBump | internal/controller/actuation.go:152-153 | the bump for the recently OOM-killed containers, capped at their maxima |
| Actuation.ActOn | internal/controller/actuation.go:109-187 | the choice for one pod, in the order of the pass |
| Actuation.VisitPods | internal/controller/actuation.go:109-187 | the loop over pods counts successes, infeasible pods and refusals, spends one eviction, and stops at an error |
| Actuation.ActuateWorkload | internal/controller/actuation.go:103-190 | after the last pod a direction is stamped exactly when some pod was resized in it, Down also for an eviction; nothing else is, and nothing at all when an error ended the pass |
| PassProperties.AtMostOneEviction | internal/controller/actuation.go:105-107 | at most one pod per workload and pass is evicted |
| PassProperties.EvictedExactly | internal/controller/actuation.go:115-143 | exactly which pod is evicted: the first accepted one that is running, infeasible or blocked, in recreate mode, with the webhook, outside the cooldown |
| PassProperties.SiblingsDoNotBlock | internal/controller/actuation.go:100-107 | a pod that needs no recreation is treated as if it were the only one |
| PassProperties.ResizedExactly | internal/controller/actuation.go:145-185 | exactly which pods are resized: no recreation, infeasible resize or OOM bump comes first, and a plan of that direction is allowed and accepted |
| PassProperties.BumpedExactly | internal/controller/actuation.go:145-165 | exactly which pods are bumped, with no cooldown in the condition |
| PassProperties.FailedExactly | internal/controller/actuation.go:156-180 | a pass fails if and only if the API server rejects some bump or resize that it asks for, stated pod by pod |
| PassProperties.RefusedExactly | internal/controller/actuation.go:115-124 | exactly which pods are refused a recreation |
| PassProperties.ReportedExactly | internal/controller/actuation.go:145-148 | exactly which pods are reported infeasible |
| PassProperties.ReportExactly | internal/controller/actuation.go:119-184 | what a pass reports, by what happened to its pods: the number evicted, bumped or resized, the infeasible ones, and whether a recreation was refused |
| PassProperties.ResizedCountsPods | internal/controller/actuation.go:137-184 | the reported count is the number of pods acted on, each once at most |
| PassProperties.PassIsSafe | internal/controller/actuation.go:176-186 | no in-place resize of a pass with floored targets pushes a watched resource over the guard |
| PassProperties.VisitStampsExactly | internal/controller/actuation.go:138-190 | a visit in which nothing is rejected stamps, at its time, exactly the directions of its resizes, and Down for an eviction; one with a rejection stamps nothing |
| PassProperties.PermissionExactly | internal/controller/actuation.go:125-170 | a visit may act in a direction never stamped for its key, or stamped at least the cooldown of its spec ago |
| PassProperties.StampsOnlyAdvance | internal/controller/actuation.go:188-190 | a stamp written at a time is never taken back below it |
| PassProperties.CooldownSpacing | internal/controller/actuation.go:100-104 | two passes acting on a workload in one direction are the later cooldown apart, unless the API server rejected something the earlier one asked for |
| PassProperties.UnstampedExactlyAfterRejection | internal/controller/actuation.go:156-190 | right after acting, a further action is allowed if and only if the API server rejected something in the pass |
| PassProperties.RejectionDefeatsCooldown | internal/controller/actuation.go:156-190 | two concrete visits that resize the same pod within the cooldown, because another pod was rejected |
| EndToEnd.RunIsVisits | internal/controller/actuation.go:71-191 | a run of controller calls moves the tracker exactly as its visits to workloads do |
| EndToEnd.VisitIsGuarded | internal/controller/actuation.go:71-104 | the pods of a workload are visited under the call's spec, time and key with its recommended targets, within the guard of its HPA for every container read |
| EndToEnd.ControllerSpacing | internal/controller/actuation.go:59-201 | the spacing over every run of controller calls with a clock that does not go back |
| EndToEnd.CallFailsExactly | internal/controller/actuation.go:71-191 | a call fails if and only if some workload breaks it: its HPA cannot be read, or, if it need not wait, its pods cannot be listed or something of theirs is rejected |
| ActuateAll.Actuate | internal/controller/actuation.go:71-200 | the loop over workloads: coordination, pods, worst state, and an end at the first error |
| ActuateAll.ActuateOne | internal/controller/actuation.go:71-190 | one workload of that loop |
| EndToEnd.CallCountsItsVisits | internal/controller/actuation.go:71-200 | the result a call reports is what its visits add up to |
| EndToEnd.PausedIsNeverVisited | internal/controller/actuation.go:71-91 | over every run of calls, whatever is resized, evicted, counted or stamped belongs to a visit to a workload whose HPA, on its own fields and those of the spec, did not make it wait |
| ActuateAll.StateIsWorst | internal/controller/actuation.go:298-308 | the reported state is Scaling when that of some workload is, otherwise AtMaxVertical when that of some is, and Idle otherwise |
| ActuateAll.KeysDiffer | internal/controller/actuation.go:103 | workloads of one namespace never share cooldowns |
| ActuateAll.NamespacesDiffer | internal/controller/actuation.go:103 | nor do workloads of two |
| ActuateAll.PassKeepsStamps | internal/controller/actuation.go:103-190 | a pass over all workloads leaves the cooldowns of every key alone that has no workload in it which need not wait |
| EndToEnd.RunKeepsStamps | internal/controller/actuation.go:71-190 | and so does every run of calls |
| Ownership.OlderExactly | internal/controller/dynamicresource_controller.go:289-294 | older means created earlier, or together with the lexicographically smaller name, by first differing character |
| Ownership.OlderThanIsStrictTotalOrder | internal/controller/dynamicresource_controller.go:289-294 | age with ties broken by name is a strict total order on distinct names |
| Ownership.ConflictedWorkloads | internal/controller/dynamicresource_controller.go:233-258 | the nested scan with its break lists the claimed workloads in order |
| Ownership.ConflictsExactly | internal/controller/dynamicresource_controller.go:239-256 | a workload is listed exactly when an older object with another name matches it |
| Ownership.UnconflictedExactly | internal/controller/dynamicresource_controller.go:111-121 | an object meets no conflict if and only if it is the oldest matcher of every workload it matches |
| Ownership.VpaConflicts | internal/controller/vpa.go:41-67 | exactly the matched Deployments that a VerticalPodAutoscaler targets |
| Ownership.Reconcile | internal/controller/dynamicresource_controller.go:98-175 | the gates before actuation in order, each with its own outcome, failing reads included |
| Ownership.FirstClosedGate | internal/controller/dynamicresource_controller.go:98-175 | the outcome is that of the first closed gate of the eleven, spelled out in their order |
| Ownership.ManagesExactly | internal/controller/dynamicresource_controller.go:98-175 | an object manages a workload if and only if it matches it, can act at all, and everything it matches has it for oldest matcher and no VerticalPodAutoscaler |
| Ownership.AtMostOneManages | internal/controller/dynamicresource_controller.go:231-232 | no two objects manage the same workload |
| Ownership.OldestMatcherExists | internal/controller/dynamicresource_controller.go:231-232 | every matched workload has an oldest matcher |
| Ownership.ManagedExactly | internal/controller/dynamicresource_controller.go:98-175 | a workload is managed if and only if its oldest matcher can act at all and owns everything else it matches |
| Ownership.LosingOneLosesAll | internal/controller/dynamicresource_controller.go:115-121 | two concrete objects where a workload matched by one of them only is managed by nobody |
| Ownership.BrokenOlderSilencesNewer | internal/controller/dynamicresource_controller.go:98-121 | two concrete objects of which the older cannot act and the newer gives way to it |

## Left out

- Kubernetes reads and writes (patch and eviction requests, finding HPAs, listing pods, label selectors, listing VerticalPodAutoscalers, status patches): their results are inputs.
- The token bucket and the detection of cluster support: their answers are inputs.
- Metrics providers: usage readings are inputs.
- float64 rounding, 64-bit overflow and the textual form of quantities.
- Webhook lookups of the owning Deployment and of its recommendation: the target map is an input.
- In the code a workload's target lists are shared with its status, so that a floor also shows up there; the model's target table is its own object.
- `markApplied`, `lastResizeTime`, conditions, events, Prometheus metrics, logging and `Forget`: no decision depends on them.
- The order in which containers and workloads are listed in status: the model's targets are a map.
- The mutex around recommender and tracker: each call is one atomic step.
- Stabilization windows and `prometheusURL`: declared in the API, not read by the decision code.
- HpaCoordination.RunKeepsSafe: is about requests that are within the guard already, because raising takes passes and stops inside the tolerance band; where it ends is `EndToEnd.RunsEndNearGuard`.
- PassProperties.CooldownSpacing: needs a first pass in which the API server rejects nothing, because the code stamps nothing in a pass that fails.
- Convergence.PassesAreSteps: stops at the pass in which a pod without a reported class becomes Guaranteed, when that changes where a request can get; it applies again from the pod as it then is.
- BumpRuns.HandsOverExactly: is about pods with a reported class, because a pod without one can turn Guaranteed in the middle of a run; `BumpsAreBounded` covers those too. Its passes are under one spec.
- Times before the zero time are covered by the unconditional histogram results only.
