/** The five cases of `Test_newRollback`, each stated as a lemma about the
    builder on the same release object the Go test constructs. */
module RollbackScenarios {
  import opened Wrappers
  import opened Release
  import opened RollbackAction

  /** Stands for the empty `helmaction.Configuration{}` each case passes. */
  datatype Configuration = Configuration

  const Meta: ObjectMeta := ObjectMeta("rollback", "rollback-ns")

  function ReleaseWith(spec: HelmReleaseSpec, previous: Option<HelmReleaseInfo>): HelmRelease {
    HelmRelease(Meta, spec, HelmReleaseStatus(previous))
  }

  /** The two option closures of the "applies options" case. */
  const SetCleanupOnFail: RollbackOption<Configuration> := (r: Rollback<Configuration>) => r.(cleanupOnFail := true)

  const SetDryRun: RollbackOption<Configuration> := (r: Rollback<Configuration>) => r.(dryRun := true)

  /** "new rollback": the policy's 10s timeout wins over the release's
      minute, and the policy's force flag is copied. */
  lemma NewRollbackCase()
    ensures var obj := ReleaseWith(HelmReleaseSpec(Some(Minute), Some(RollbackPolicy(Some(10 * Second), true))), None);
            var got := Build(Configuration, obj, []);
            got.timeout == 10 * Second && got.force
  {
  }

  /** "rollback with previous": a record with the object's identity gives
      its version. */
  lemma PreviousCase()
    ensures var obj := ReleaseWith(HelmReleaseSpec(None, None), Some(HelmReleaseInfo("rollback", "rollback-ns", 3)));
            Build(Configuration, obj, []).version == 3
  {
  }

  /** "rollback with stale previous": a record from another namespace is
      ignored although it carries version 3. */
  lemma StalePreviousCase()
    ensures var obj := ReleaseWith(HelmReleaseSpec(None, None), Some(HelmReleaseInfo("rollback", "other-ns", 3)));
            Build(Configuration, obj, []).version == 0
  {
  }

  /** "timeout fallback": without a policy the release's minute is used. */
  lemma TimeoutFallbackCase()
    ensures var obj := ReleaseWith(HelmReleaseSpec(Some(Minute), None), None);
            Build(Configuration, obj, []).timeout == Minute
  {
  }

  /** "applies options": both options take effect, each on its own field. */
  lemma AppliesOptionsCase()
    ensures var got := Build(Configuration, ReleaseWith(HelmReleaseSpec(None, None), None), [SetCleanupOnFail, SetDryRun]);
            got.cleanupOnFail && got.dryRun
  {
    var obj := ReleaseWith(HelmReleaseSpec(None, None), None);
    var opts := [SetCleanupOnFail, SetDryRun];
    assert opts[1..] == [SetDryRun];
    assert LeaveAll(opts[1..], CleanupOnFail);
    OverrideWins(Configuration, obj, opts, 0, CleanupOnFail);
    assert opts[2..] == [];
    OverrideWins(Configuration, obj, opts, 1, DryRun);
  }
}
