/**
  The shape shared by the sign-up and login handlers: a fixed sequence of
  checks, each of which may let the request through, refuse it by raising
  an `APIException`, or raise some other Python exception that escapes the
  handler. The first check that does not pass decides the outcome.
*/
module Checks {
  import opened PyJson
  import opened Exceptions

  /** What one check does with a request. */
  datatype Verdict = Pass | Reject(e: APIException) | Crash

  /** The outcome of a run of checks that produces a value when all pass. */
  datatype Checked<T> = Accepted(value: T) | Refused(e: APIException) | Crashed {

    predicate IsFailure() {
      !Accepted?
    }

    function PropagateFailure<U>(): Checked<U>
      requires IsFailure()
    {
      if Refused? then Refused(e) else Crashed
    }

    function Extract(): T
      requires Accepted?
    {
      value
    }

    /** The verdict the outcome amounts to, forgetting the produced value. */
    function ToVerdict(): Verdict {
      match this
      case Accepted(_) => Pass
      case Refused(e) => Reject(e)
      case Crashed => Crash
    }
  }

  /** `if not condition: raise APIException(message)`. */
  function Need(condition: bool, message: string): (v: Verdict)
    ensures v.Pass? <==> condition
    ensures v.Reject? <==> !condition
    ensures v.Reject? ==> v.e == ApiError(message)
  {
    if condition then Pass else Reject(ApiError(message))
  }

  /** `if 'key' not in body: raise APIException(missing)`. */
  function RequireKey(body: Json, key: string, missing: string): (r: Checked<()>)
    ensures r.Accepted? <==> Contains(body, key) == Value(true)
    ensures r.Refused? <==> Contains(body, key) == Value(false)
    ensures r.Refused? ==> r.e == ApiError(missing)
  {
    match Contains(body, key)
    case Raised => Crashed
    case Value(present) => if present then Accepted(()) else Refused(ApiError(missing))
  }

  /** Running checks in order: the verdict of the first one that does not
      pass, or `Pass` when none fails. */
  function Chain(vs: seq<Verdict>): (v: Verdict)
    ensures v.Pass? <==> forall i | 0 <= i < |vs| :: vs[i].Pass?
    ensures !v.Pass? ==> exists i | 0 <= i < |vs| :: vs[i] == v && forall j | 0 <= j < i :: vs[j].Pass?
  {
    if |vs| == 0 then Pass
    else if !vs[0].Pass? then vs[0]
    else
      var rest := Chain(vs[1..]);
      assert forall i | 1 <= i < |vs| :: vs[i] == vs[1..][i - 1];
      rest
  }

  /** The first failing check wins: once every check before `k` has passed,
      the verdict of check `k`, if it does not pass, is the verdict of the
      whole sequence. */
  lemma {:induction false} ChainFirstFailure(vs: seq<Verdict>, k: int)
    requires 0 <= k < |vs|
    requires forall j | 0 <= j < k :: vs[j].Pass?
    requires !vs[k].Pass?
    ensures Chain(vs) == vs[k]
    decreases k
  {
    if k > 0 {
      assert forall j | 0 <= j < k - 1 :: vs[1..][j] == vs[j + 1];
      ChainFirstFailure(vs[1..], k - 1);
    }
  }

  /** Running two sequences of checks one after the other: the second only
      matters when the first lets the request through. */
  lemma {:induction false} ChainAppend(a: seq<Verdict>, b: seq<Verdict>)
    ensures Chain(a + b) == if Chain(a).Pass? then Chain(b) else Chain(a)
  {
    if |a| > 0 {
      assert (a + b)[0] == a[0];
      assert (a + b)[1..] == a[1..] + b;
      ChainAppend(a[1..], b);
    } else {
      assert a + b == b;
    }
  }
}
