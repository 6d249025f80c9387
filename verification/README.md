# Rollback action builder of the Flux helm-controller

This project models `newRollback(config, obj, opts)` from the helm-controller's
`internal/action` package. The builder takes a HelmRelease and produces the
parameters of a Helm rollback:

- the target version, taken from `Status.Previous` only when that record carries
  the release's own name and namespace, otherwise zero, so the backend picks the
  most recent revision;
- the timeout, taken from `Spec.Rollback.Timeout`, else from `Spec.Timeout`, else zero;
- the force flag, copied from `Spec.Rollback.Force`;
- cleanup-on-fail and dry-run, which start false.

After these are resolved, the caller's `RollbackOption` functions are applied
in the order given.

The implementation of `newRollback` is not part of this model. The behaviour
follows what `internal/action/rollback_test.go` asserts. Where the tests are
silent, the model makes its own choices; "## Left out" lists each of them.

Files:

- `wrappers.dfy` (module `Wrappers`): `Option`, which stands in for Go's nil-able
  pointers, and `FirstPresent`, a first-match-wins fallback chain.
- `release.dfy` (module `Release`): the HelmRelease fields the builder reads.
  Durations are integer nanoseconds.
- `rollback.dfy` (module `RollbackAction`): the built action `Rollback<C>`, the
  declarative resolution, the option fold and the imperative loop
  `NewRollback`. It also holds the precedence lemmas. They are stated for
  any options that leave the field in question alone. The Go tests pass `nil`
  options, so they are the special case of an empty list.
- `rollback_scenarios.dfy` (module `RollbackScenarios`): the five subtests of
  `Test_newRollback`, each a lemma on the same object the test builds.

The backend configuration handle is a type parameter `C`. The builder embeds it
in the result without inspecting it. The builder has no precondition. For
options that are total functions, it returns a value for every input, which is
the model's form of the tests' `ToNot(BeNil())` checks.

## Model

| member | source | states |
|---|---|---|
| RollbackAction.ResolveVersion | internal/action/rollback_test.go:57-95 | previous version when the record is present with the object's name and namespace; zero when the record is stale or absent |
| RollbackAction.ResolveTimeout | internal/action/rollback_test.go:40-50 | policy timeout when the policy and its timeout are present; else the release timeout; else zero |
| RollbackAction.ResolveForce | internal/action/rollback_test.go:41-51 | force is true exactly when a policy is present and its force flag is set |
| RollbackAction.FlagsStartFalse | internal/action/rollback_test.go:116-137 | cleanup-on-fail and dry-run are not derived from the release: in the built action both are false unless an option sets them |
| RollbackAction.ApplyOptions | internal/action/rollback_test.go:127-134 | the fold that applies the last option to the result of all earlier ones equals the reference reading in which the first option sees the starting action and the rest follow in list order |
| RollbackAction.ApplyInOrderSnoc | internal/action/rollback_test.go:127-134 | in the in-order reading, an option appended to the list is applied to the result of all the options before it |
| RollbackAction.Build | internal/action/rollback_test.go:127-137 | the built action is the declarative action with every option applied in list order, the first option seeing the declarative action |
| RollbackAction.NewRollback | internal/action/rollback_test.go:127-137 | the in-place loop over the options equals the left-to-right fold over the declarative action; with no options it is the declarative action; it is total |
| RollbackAction.ApplyOptionsAppend | internal/action/rollback_test.go:127-134 | applying a list of options and then another list equals applying their concatenation |
| RollbackAction.FirstOptionFirst | internal/action/rollback_test.go:127-134 | the first option in the list is applied first, to the declarative action |
| RollbackAction.UntouchedFieldSurvives | internal/action/rollback_test.go:127-137 | a field that no option changes keeps the value it had before the options |
| RollbackAction.LastSetterWins | internal/action/rollback_test.go:127-137 | the last option that sets a field decides that field; of two setters of one field, the later wins |
| RollbackAction.OverrideWins | internal/action/rollback_test.go:127-137 | an option that sets a field overrides the declarative value of that field in the built action |
| RollbackAction.PolicyTimeoutWins | internal/action/rollback_test.go:40-50 | with a policy timeout present, the built timeout is that timeout, whatever the release timeout |
| RollbackAction.TimeoutFallsBack | internal/action/rollback_test.go:101-113 | without a policy timeout, the built timeout is the release timeout, or zero without one |
| RollbackAction.TimeoutIsFirstPresent | internal/action/rollback_test.go:98-113 | the resolved timeout equals the first present entry of the chain (policy timeout, release timeout), defaulting to zero |
| RollbackAction.ForceFromPolicy | internal/action/rollback_test.go:41-51 | the built force flag is true exactly when a policy is present and its force flag is set |
| RollbackAction.VersionFromCurrentPrevious | internal/action/rollback_test.go:57-95 | the built version is the previous version exactly when the record is present with the object's identity, and zero otherwise |
| RollbackAction.NoForeignVersion | internal/action/rollback_test.go:79-95 | a non-zero built version implies a previous record with the object's own name and namespace |
| Wrappers.FirstPresent | internal/action/rollback_test.go:98-113 | the result is the value of the first present candidate, or the default when all are absent |
| RollbackScenarios.NewRollbackCase | internal/action/rollback_test.go:31-52 | a policy of 10s with force set, over a release timeout of one minute, gives timeout 10s and force true |
| RollbackScenarios.PreviousCase | internal/action/rollback_test.go:54-74 | a previous record named rollback in rollback-ns with version 3 gives version 3 |
| RollbackScenarios.StalePreviousCase | internal/action/rollback_test.go:76-96 | a previous record in other-ns with version 3 gives version 0 |
| RollbackScenarios.TimeoutFallbackCase | internal/action/rollback_test.go:98-114 | no policy and a release timeout of one minute give timeout one minute |
| RollbackScenarios.AppliesOptionsCase | internal/action/rollback_test.go:116-138 | options that set cleanup-on-fail and dry-run leave both true in the result |

## Left out

- The backend configuration (`helmaction.Configuration`): a type parameter, never inspected.
- Executing the rollback against Helm and any cluster I/O: this happens in a foreign library after the builder returns.
- Fields of Helm's rollback action that the tests never read: only version, timeout, force, cleanup-on-fail and dry-run are modelled.
- Kubernetes object metadata beyond name and namespace. `metav1.Duration` is reduced to an integer count of nanoseconds. The 64-bit range is not modelled, because the builder only copies durations.
- The gomega assertions and the Go test harness.
- No test asserts the following rules, so they are this model's own choices:
  - the timeout is zero when both timeouts are absent;
  - the version is zero when there is no previous record;
  - a record whose name differs from the object's is stale, as one whose namespace differs is (the tests only vary the namespace);
  - force is false when there is no rollback policy (the tests only have a policy with force set);
  - cleanup-on-fail and dry-run start false (`FlagsStartFalse`; the tests only check them after options set them);
  - of two options setting the same field, the later one wins (`LastSetterWins`).
- A policy that is present with an explicit zero timeout resolves to zero. It does not fall back to the release timeout, because presence decides, as with Go's nil checks.
- Options that fail: a Go `RollbackOption` is `func(*helmaction.Rollback)` and edits the action through a pointer, so a nil entry in `opts` or an option that panics aborts the builder. The model covers only options that are total, pure functions from one action to the next and do not alias anything else.
- The configuration handle inside the built action: an option may replace it, and the field-level precedence lemmas do not track it.
