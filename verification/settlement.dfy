/**
 * The one-shot settlement of the promise each sign-in flow returns: the
 * first `resolve` or `reject` decides the outcome and every later call is
 * ignored. The flows lean on this: they call `reject` without returning
 * and let a later `resolve` (or the `exit` listener they never removed)
 * run into a settled promise.
 */
module Settlement {
  import opened Strings

  /** The reason both flows reject with when the user closes the browser first. */
  const SignInCanceled: Text := "The sign in flow was canceled"

  /** The state of a promise. */
  datatype Outcome<+T> = Pending | Resolved(value: T) | Rejected(reason: Text)

  /** One call of the executor's `resolve(v)` or `reject(reason)`. */
  datatype Call<+T> = ResolveWith(value: T) | RejectWith(reason: Text)

  /** What a call does: a pending promise takes it, a settled one ignores it. */
  function Apply<T>(o: Outcome<T>, c: Call<T>): (r: Outcome<T>)
    ensures !o.Pending? ==> r == o
    ensures o.Pending? ==> !r.Pending?
  {
    if !o.Pending? then o
    else match c
      case ResolveWith(v) => Resolved(v)
      case RejectWith(reason) => Rejected(reason)
  }

  /** The calls in order. */
  function ApplyAll<T>(o: Outcome<T>, calls: seq<Call<T>>): Outcome<T>
    decreases |calls|
  {
    if |calls| == 0 then o else ApplyAll(Apply(o, calls[0]), calls[1..])
  }

  /** A settled promise keeps its outcome whatever is called afterwards. */
  lemma {:induction false} SettledStays<T>(o: Outcome<T>, calls: seq<Call<T>>)
    requires !o.Pending?
    ensures ApplyAll(o, calls) == o
    decreases |calls|
  {
    if |calls| > 0 {
      SettledStays(Apply(o, calls[0]), calls[1..]);
    }
  }

  /** Of any run of calls on a pending promise, the first one decides. */
  lemma {:induction false} FirstCallWins<T>(calls: seq<Call<T>>)
    requires |calls| > 0
    ensures ApplyAll(Pending, calls) == Apply(Pending, calls[0])
    ensures ApplyAll(Pending, calls) != Pending
  {
    SettledStays(Apply(Pending, calls[0]), calls[1..]);
  }

  /** The promise the executor settles. */
  class Promise<T> {
    var outcome: Outcome<T>

    constructor ()
      ensures outcome == Pending
    {
      outcome := Pending;
    }

    method Resolve(v: T)
      modifies this
      ensures outcome == Apply(old(outcome), ResolveWith(v))
    {
      if outcome.Pending? {
        outcome := Resolved(v);
      }
    }

    method Reject(reason: Text)
      modifies this
      ensures outcome == Apply(old(outcome), RejectWith(reason))
    {
      if outcome.Pending? {
        outcome := Rejected(reason);
      }
    }
  }
}
