/**
  The optional value used wherever the source has `undefined`, `null` or a
  missing entry, and the first-match search behind `Array.prototype.find`
  and `Array.prototype.findIndex`.
 */
module Options {

  /** `undefined` / `null` is None; a present value is Some. */
  datatype Option<T> = None | Some(value: T) {

    /** The value, or `default` when absent (the source's `x || default`). */
    function GetOr(default: T): T
    {
      match this
      case Some(v) => v
      case None => default
    }
  }

  /** Index of the first element satisfying `p`, as `findIndex` returns it
      (None stands for -1). */
  function FindIndex<T>(s: seq<T>, p: T -> bool): (r: Option<nat>)
    ensures r.Some? ==> r.value < |s| && p(s[r.value])
    ensures r.Some? ==> forall j :: 0 <= j < r.value ==> !p(s[j])
    ensures r.None? <==> forall j :: 0 <= j < |s| ==> !p(s[j])
  {
    if |s| == 0 then None
    else if p(s[0]) then Some(0)
    else
      match FindIndex(s[1..], p)
      case None => None
      case Some(k) => Some(k + 1)
  }

  /** The first index is determined by the predicate's values alone: two
      sequences on which `p` and `q` agree pointwise have the same first match. */
  lemma {:induction false} FindIndexAgrees<T, U>(s: seq<T>, p: T -> bool, t: seq<U>, q: U -> bool)
    requires |s| == |t|
    requires forall j :: 0 <= j < |s| ==> p(s[j]) == q(t[j])
    ensures FindIndex(s, p) == FindIndex(t, q)
  {
    if |s| > 0 && !p(s[0]) {
      FindIndexAgrees(s[1..], p, t[1..], q);
    }
  }
}
