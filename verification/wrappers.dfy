/** Presence-tagged values, standing in for the nil-able pointers of the
    HelmRelease API types (`*metav1.Duration`, `*Rollback`, `*HelmReleaseInfo`). */
module Wrappers {

  /** A field that may be unset: `None` is the nil pointer, `Some(v)` a
      pointer to `v`. */
  datatype Option<T> = None | Some(value: T) {

    /** Dereference with a fallback: `v` for `Some(v)`, `default` for `None`. */
    function GetOr(default: T): T {
      if Some? then value else default
    }
  }

  /** The value of the first present candidate, scanning left to right, or
      `default` when every candidate is absent: a fallback chain in which the
      first match wins and nothing is merged. */
  function FirstPresent<T>(candidates: seq<Option<T>>, default: T): (r: T)
    ensures (forall i | 0 <= i < |candidates| :: candidates[i].None?) ==> r == default
    ensures forall i | 0 <= i < |candidates| && candidates[i].Some? ::
              (forall j | 0 <= j < i :: candidates[j].None?) ==> r == candidates[i].value
  {
    if |candidates| == 0 then default
    else if candidates[0].Some? then candidates[0].value
    else FirstPresent(candidates[1..], default)
  }
}
