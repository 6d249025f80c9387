/** The parts of the HelmRelease custom resource (API group helm.toolkit.fluxcd.io,
    version v2beta2) that the rollback builder reads: object identity, the
    declared timeouts and rollback policy, and the previous release record. */
module Release {
  import opened Wrappers

  /** A Go `time.Duration`: a count of nanoseconds. The builder only copies
      durations, so the 64-bit range of the Go type plays no part. */
  type Duration = int

  const Second: Duration := 1_000_000_000
  const Minute: Duration := 60 * Second

  /** The identity of a Kubernetes object (`metav1.ObjectMeta`), reduced to
      the two fields the builder compares. */
  datatype ObjectMeta = ObjectMeta(name: string, namespace: string)

  /** `Spec.Rollback`: the declared rollback policy. */
  datatype RollbackPolicy = RollbackPolicy(timeout: Option<Duration>, force: bool)

  /** `Spec`: the declared desired state. */
  datatype HelmReleaseSpec = HelmReleaseSpec(timeout: Option<Duration>, rollback: Option<RollbackPolicy>)

  /** `Status.Previous`: the record of the release before the current one. */
  datatype HelmReleaseInfo = HelmReleaseInfo(name: string, namespace: string, version: int)

  datatype HelmReleaseStatus = HelmReleaseStatus(previous: Option<HelmReleaseInfo>)

  datatype HelmRelease = HelmRelease(meta: ObjectMeta, spec: HelmReleaseSpec, status: HelmReleaseStatus)

  /** A release record belongs to the object when both name and namespace
      match; any other record is stale (left from a renamed or recreated object). */
  predicate SameIdentity(info: HelmReleaseInfo, meta: ObjectMeta) {
    info.name == meta.name && info.namespace == meta.namespace
  }

  /** The rollback policy's own timeout, absent when the policy is. */
  function PolicyTimeout(spec: HelmReleaseSpec): Option<Duration> {
    match spec.rollback
    case Some(policy) => policy.timeout
    case None => None
  }
}
