/** The rollback action builder: from a HelmRelease it derives the parameters
    of a Helm rollback (target version, timeout, force, cleanup-on-fail,
    dry-run), then applies the caller's option functions in order. */
module RollbackAction {
  import opened Wrappers
  import opened Release

  /** The built Helm rollback action. `config` is the backend configuration
      handle, carried unopened. A `version` of zero lets the backend pick the
      most recent revision; a `timeout` of zero leaves the backend's default. */
  datatype Rollback<C> = Rollback(
    config: C,
    version: int,
    timeout: Duration,
    force: bool,
    cleanupOnFail: bool,
    dryRun: bool)

  /** A caller-supplied modification of the built action (`RollbackOption`). */
  type RollbackOption<!C> = Rollback<C> -> Rollback<C>

  /** The fields an option can touch (the handle is not among them). */
  datatype Field = Version | Timeout | Force | CleanupOnFail | DryRun

  /** `a` and `b` hold the same value in field `f`. */
  predicate Agree<C>(a: Rollback<C>, b: Rollback<C>, f: Field) {
    match f
    case Version => a.version == b.version
    case Timeout => a.timeout == b.timeout
    case Force => a.force == b.force
    case CleanupOnFail => a.cleanupOnFail == b.cleanupOnFail
    case DryRun => a.dryRun == b.dryRun
  }

  /** Option `o` never changes field `f`. */
  ghost predicate Leaves<C(!new)>(o: RollbackOption<C>, f: Field) {
    forall r :: Agree(o(r), r, f)
  }

  /** Option `o` sets field `f` to one value whatever it is given. */
  ghost predicate Fixes<C(!new)>(o: RollbackOption<C>, f: Field) {
    forall r, r' :: Agree(o(r), o(r'), f)
  }

  /** Every option in `opts` leaves field `f` alone. */
  ghost predicate LeaveAll<C(!new)>(opts: seq<RollbackOption<C>>, f: Field) {
    forall i | 0 <= i < |opts| :: Leaves(opts[i], f)
  }

  // ---------------------------------------------------------------------
  // Declarative resolution

  /** Version selection with the staleness check: the previous release's
      version is used only when its name and namespace are the object's own. */
  function ResolveVersion(obj: HelmRelease): (v: int)
    ensures (obj.status.previous.Some? && SameIdentity(obj.status.previous.value, obj.meta))
              ==> v == obj.status.previous.value.version
    ensures obj.status.previous.Some? && !SameIdentity(obj.status.previous.value, obj.meta) ==> v == 0
    ensures obj.status.previous.None? ==> v == 0
  {
    match obj.status.previous
    case Some(prev) => if SameIdentity(prev, obj.meta) then prev.version else 0
    case None => 0
  }

  /** Timeout fallback chain: the policy's timeout, else the release's
      timeout, else zero. */
  function ResolveTimeout(spec: HelmReleaseSpec): (d: Duration)
    ensures (spec.rollback.Some? && spec.rollback.value.timeout.Some?)
              ==> d == spec.rollback.value.timeout.value
    ensures PolicyTimeout(spec).None? && spec.timeout.Some? ==> d == spec.timeout.value
    ensures PolicyTimeout(spec).None? && spec.timeout.None? ==> d == 0
  {
    var fallback := spec.timeout.GetOr(0);
    match spec.rollback
    case Some(policy) => policy.timeout.GetOr(fallback)
    case None => fallback
  }

  /** The force flag: the policy's, or false without a policy. */
  function ResolveForce(spec: HelmReleaseSpec): (b: bool)
    ensures b <==> spec.rollback.Some? && spec.rollback.value.force
  {
    match spec.rollback
    case Some(policy) => policy.force
    case None => false
  }

  /** The action as derived from the release alone, before any option. */
  function Declarative<C>(config: C, obj: HelmRelease): (r: Rollback<C>)
    ensures r.config == config
    ensures r.version == ResolveVersion(obj)
    ensures r.timeout == ResolveTimeout(obj.spec)
    ensures r.force == ResolveForce(obj.spec)
    ensures !r.cleanupOnFail && !r.dryRun
  {
    Rollback(config, ResolveVersion(obj), ResolveTimeout(obj.spec), ResolveForce(obj.spec), false, false)
  }

  // ---------------------------------------------------------------------
  // Option application

  /** Reference reading of the option list: the first option sees `start`,
      then the remaining options are applied in list order. */
  function ApplyInOrder<C>(start: Rollback<C>, opts: seq<RollbackOption<C>>): Rollback<C>
    decreases |opts|
  {
    if |opts| == 0 then start else ApplyInOrder(opts[0](start), opts[1..])
  }

  /** In the reference reading, an option appended to the list is applied to
      the result of all the options before it. */
  lemma {:induction false} ApplyInOrderSnoc<C>(start: Rollback<C>, opts: seq<RollbackOption<C>>, o: RollbackOption<C>)
    ensures ApplyInOrder(start, opts + [o]) == o(ApplyInOrder(start, opts))
    decreases |opts|
  {
    if |opts| == 0 {
      assert ([] + [o])[1..] == [];
    } else {
      assert (opts + [o])[1..] == opts[1..] + [o];
      ApplyInOrderSnoc(opts[0](start), opts[1..], o);
    }
  }

  /** Applies `opts` to `start`, peeling off the last option: it is applied
      to the result of all the earlier ones. This agrees with the reference
      reading, in which the first option is applied first. */
  function ApplyOptions<C>(start: Rollback<C>, opts: seq<RollbackOption<C>>): (r: Rollback<C>)
    ensures r == ApplyInOrder(start, opts)
  {
    if |opts| == 0 then start
    else
      var init := opts[..|opts| - 1];
      ApplyInOrderSnoc(start, init, opts[|opts| - 1]);
      assert init + [opts[|opts| - 1]] == opts;
      opts[|opts| - 1](ApplyOptions(start, init))
  }

  /** `newRollback`: the declarative resolution followed by every option, in
      list order. */
  function Build<C>(config: C, obj: HelmRelease, opts: seq<RollbackOption<C>>): (r: Rollback<C>)
    ensures r == ApplyInOrder(Declarative(config, obj), opts)
  {
    ApplyOptions(Declarative(config, obj), opts)
  }

  /** The imperative form of `Build`: one pass over the options, each applied
      to the action built so far. It has no precondition, so every input
      yields an action. */
  method NewRollback<C>(config: C, obj: HelmRelease, opts: seq<RollbackOption<C>>) returns (r: Rollback<C>)
    ensures r == Build(config, obj, opts)
  {
    r := Declarative(config, obj);
    var k := 0;
    while k < |opts|
      invariant 0 <= k <= |opts|
      invariant r == ApplyOptions(Declarative(config, obj), opts[..k])
    {
      assert opts[..k + 1][..k] == opts[..k];
      r := opts[k](r);
      k := k + 1;
    }
    assert opts[..|opts|] == opts;
  }

  // ---------------------------------------------------------------------
  // Properties of option application

  /** Applying `a` then `b` is applying their concatenation. */
  lemma {:induction false} ApplyOptionsAppend<C>(r: Rollback<C>, a: seq<RollbackOption<C>>, b: seq<RollbackOption<C>>)
    ensures ApplyOptions(r, a + b) == ApplyOptions(ApplyOptions(r, a), b)
    decreases |b|
  {
    if |b| == 0 {
      assert a + b == a;
    } else {
      var n := |b| - 1;
      assert (a + b)[..|a + b| - 1] == a + b[..n];
      ApplyOptionsAppend(r, a, b[..n]);
    }
  }

  /** The first option is applied first: left-to-right order. */
  lemma FirstOptionFirst<C>(r: Rollback<C>, o: RollbackOption<C>, rest: seq<RollbackOption<C>>)
    ensures ApplyOptions(r, [o] + rest) == ApplyOptions(o(r), rest)
  {
  }

  /** A field no option touches keeps its declarative value. */
  lemma {:induction false} UntouchedFieldSurvives<C(!new)>(r: Rollback<C>, opts: seq<RollbackOption<C>>, f: Field)
    requires LeaveAll(opts, f)
    ensures Agree(ApplyOptions(r, opts), r, f)
    decreases |opts|
  {
    if |opts| > 0 {
      var init := opts[..|opts| - 1];
      assert LeaveAll(init, f) by {
        forall i | 0 <= i < |init| ensures Leaves(init[i], f) {
          assert init[i] == opts[i];
        }
      }
      UntouchedFieldSurvives(r, init, f);
      assert Leaves(opts[|opts| - 1], f);
      var before := ApplyOptions(r, init);
      assert Agree(opts[|opts| - 1](before), before, f);
    }
  }

  /** The last option that sets a field decides it: options after it that
      leave the field alone do not change it. Hence, of two options setting
      the same field, the later one wins. */
  lemma {:induction false} LastSetterWins<C(!new)>(r: Rollback<C>, opts: seq<RollbackOption<C>>, i: nat, f: Field, q: Rollback<C>)
    requires i < |opts|
    requires Fixes(opts[i], f)
    requires LeaveAll(opts[i + 1..], f)
    ensures Agree(ApplyOptions(r, opts), opts[i](q), f)
  {
    var head := opts[..i + 1];
    var tail := opts[i + 1..];
    assert opts == head + tail;
    ApplyOptionsAppend(r, head, tail);
    assert head[..i] == opts[..i];
    var mid := ApplyOptions(r, head);
    assert mid == opts[i](ApplyOptions(r, opts[..i]));
    assert Agree(mid, opts[i](q), f);
    UntouchedFieldSurvives(mid, tail, f);
  }

  // ---------------------------------------------------------------------
  // Properties of the builder

  /** A present policy timeout wins over the release timeout. */
  lemma PolicyTimeoutWins<C(!new)>(config: C, obj: HelmRelease, opts: seq<RollbackOption<C>>)
    requires obj.spec.rollback.Some? && obj.spec.rollback.value.timeout.Some?
    requires LeaveAll(opts, Timeout)
    ensures Build(config, obj, opts).timeout == obj.spec.rollback.value.timeout.value
  {
    UntouchedFieldSurvives(Declarative(config, obj), opts, Timeout);
  }

  /** Without a policy timeout the release timeout is used, else zero. */
  lemma TimeoutFallsBack<C(!new)>(config: C, obj: HelmRelease, opts: seq<RollbackOption<C>>)
    requires PolicyTimeout(obj.spec).None?
    requires LeaveAll(opts, Timeout)
    ensures Build(config, obj, opts).timeout == obj.spec.timeout.GetOr(0)
  {
    UntouchedFieldSurvives(Declarative(config, obj), opts, Timeout);
  }

  /** The resolved timeout is the first present entry of the chain
      (policy timeout, release timeout), defaulting to zero. */
  lemma TimeoutIsFirstPresent(spec: HelmReleaseSpec)
    ensures ResolveTimeout(spec) == FirstPresent([PolicyTimeout(spec), spec.timeout], 0)
  {
  }

  /** With a policy, the action's force flag is the policy's. */
  lemma ForceFromPolicy<C(!new)>(config: C, obj: HelmRelease, opts: seq<RollbackOption<C>>)
    requires LeaveAll(opts, Force)
    ensures Build(config, obj, opts).force <==> obj.spec.rollback.Some? && obj.spec.rollback.value.force
  {
    UntouchedFieldSurvives(Declarative(config, obj), opts, Force);
  }

  /** The previous release's version is used exactly when it is present and
      has the object's identity; otherwise the version is zero. */
  lemma VersionFromCurrentPrevious<C(!new)>(config: C, obj: HelmRelease, opts: seq<RollbackOption<C>>)
    requires LeaveAll(opts, Version)
    ensures var v := Build(config, obj, opts).version;
            if obj.status.previous.Some? && SameIdentity(obj.status.previous.value, obj.meta)
            then v == obj.status.previous.value.version
            else v == 0
  {
    UntouchedFieldSurvives(Declarative(config, obj), opts, Version);
  }

  /** A stale record never leaks its version: a non-zero version comes from
      a previous release with the object's own name and namespace. */
  lemma NoForeignVersion<C(!new)>(config: C, obj: HelmRelease, opts: seq<RollbackOption<C>>)
    requires LeaveAll(opts, Version)
    requires Build(config, obj, opts).version != 0
    ensures obj.status.previous.Some?
    ensures SameIdentity(obj.status.previous.value, obj.meta)
  {
    VersionFromCurrentPrevious(config, obj, opts);
  }

  /** An option that sets a field takes precedence over the declarative value
      when no later option touches that field: `LastSetterWins` applied to the
      declarative action. */
  lemma OverrideWins<C(!new)>(config: C, obj: HelmRelease, opts: seq<RollbackOption<C>>, i: nat, f: Field)
    requires i < |opts|
    requires Fixes(opts[i], f)
    requires LeaveAll(opts[i + 1..], f)
    ensures Agree(Build(config, obj, opts), opts[i](Declarative(config, obj)), f)
  {
    LastSetterWins(Declarative(config, obj), opts, i, f, Declarative(config, obj));
  }

  /** Cleanup-on-fail and dry-run are not derived from the release: they are
      false unless an option sets them. */
  lemma FlagsStartFalse<C(!new)>(config: C, obj: HelmRelease, opts: seq<RollbackOption<C>>)
    requires LeaveAll(opts, CleanupOnFail) && LeaveAll(opts, DryRun)
    ensures !Build(config, obj, opts).cleanupOnFail && !Build(config, obj, opts).dryRun
  {
    UntouchedFieldSurvives(Declarative(config, obj), opts, CleanupOnFail);
    UntouchedFieldSurvives(Declarative(config, obj), opts, DryRun);
  }
}
