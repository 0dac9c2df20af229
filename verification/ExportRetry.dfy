/**
 A log or span export refused as unavailable is attempted again after each delay of a
 finite list. The exporter is adversarial: it may answer every call as it likes.
 */
module ExportRetry {
  import Text

  datatype Result = Done | Failed(error: string)

  predicate IsUnavailable(result: Result) {
    result.Failed? && Text.Contains(result.error, "Unavailable")
  }

  lemma UnavailableHoldsTheWord(error: string)
    ensures IsUnavailable(Failed(error)) <==> Text.IsSubstring(error, "Unavailable")
    ensures !IsUnavailable(Done)
  {
    Text.ContainsIsSubstring(error, "Unavailable");
  }

  // The exporter wrapped: `answers` are its results in call order, `seen` the
  // batches it was called with so far.
  class Inner<Item> {
    const answers: nat -> Result
    var seen: seq<seq<Item>>

    constructor (answers: nat -> Result)
      ensures this.answers == answers && seen == []
    {
      this.answers := answers;
      seen := [];
    }

    method Export(batch: seq<Item>) returns (result: Result)
      modifies this
      ensures seen == old(seen) + [batch] && result == answers(|old(seen)|)
    {
      result := answers(|seen|);
      seen := seen + [batch];
    }
  }

  ghost predicate RefusedFor(answers: nat -> Result, from: nat, n: nat) {
    forall j :: from <= j < from + n ==> IsUnavailable(answers(j))
  }

  // How many of the `limit` answers from the call numbered `from` on are refusals,
  // up to the first that is not.
  function LeadingRefusals(answers: nat -> Result, from: nat, limit: nat): (n: nat)
    ensures n <= limit && RefusedFor(answers, from, n)
    ensures n < limit ==> !IsUnavailable(answers(from + n))
    decreases limit
  {
    if limit == 0 || !IsUnavailable(answers(from)) then 0
    else 1 + LeadingRefusals(answers, from + 1, limit - 1)
  }

  lemma RefusalsEnd(answers: nat -> Result, from: nat, limit: nat, n: nat)
    requires n <= limit && RefusedFor(answers, from, n)
    requires n < limit ==> !IsUnavailable(answers(from + n))
    ensures LeadingRefusals(answers, from, limit) == n
  {
    var m := LeadingRefusals(answers, from, limit);
    var afterM: nat, afterN: nat := from + m, from + n;
    assert m < n ==> IsUnavailable(answers(afterM));
    assert n < m ==> IsUnavailable(answers(afterN));
  }

  function Repeat<T>(x: T, n: nat): (s: seq<T>)
    ensures |s| == n
  {
    if n == 0 then [] else Repeat(x, n - 1) + [x]
  }

  lemma TakeNext<T>(s: seq<T>, i: nat)
    requires i < |s|
    ensures s[..i + 1] == s[..i] + [s[i]]
  {
  }

  class RetryUnavailable<Item> {
    const inner: Inner<Item>
    const hasRuntime: bool
    const backoff: seq<nat>
    var pauses: seq<nat>

    constructor (inner: Inner<Item>, hasRuntime: bool, backoff: seq<nat>)
      ensures this.inner == inner && this.hasRuntime == hasRuntime && this.backoff == backoff && pauses == []
    {
      this.inner := inner;
      this.hasRuntime := hasRuntime;
      this.backoff := backoff;
      pauses := [];
    }

    // How often an export is retried whose first attempt is the call numbered `first`.
    function Retries(first: nat): (n: nat)
      ensures n <= |backoff|
    {
      if hasRuntime then LeadingRefusals(inner.answers, first, |backoff|) else 0
    }

    // The right number of retries after a first attempt in the call numbered `first`:
    // none without a runtime; else one for each refusal, up to the first answer that is
    // none or the end of the delays.
    ghost predicate StopsAfter(first: nat, retries: nat)
      reads this
    {
      && retries <= |backoff|
      && (!hasRuntime ==> retries == 0)
      && (forall j :: first <= j < first + retries ==> IsUnavailable(inner.answers(j)))
      && (hasRuntime && retries < |backoff| ==> !IsUnavailable(inner.answers(first + retries)))
    }

    method Pause(delay: nat)
      modifies this`pauses
      ensures pauses == if hasRuntime then old(pauses) + [delay] else old(pauses)
    {
      if hasRuntime {
        pauses := pauses + [delay];
      }
    }

    // The same batch was attempted once and then `retries` times more, after as many
    // delays, and `result` is the last answer.
    ghost predicate Retried(seen: seq<seq<Item>>, paused: seq<nat>, batch: seq<Item>, retries: nat, result: Result)
      reads this, inner
    {
      && retries <= |backoff|
      && inner.seen == seen + Repeat(batch, 1 + retries)
      && pauses == paused + backoff[..retries]
      && result == inner.answers(|seen| + retries)
    }

    method TryFirst(batch: seq<Item>) returns (result: Result)
      modifies inner
      ensures Retried(old(inner.seen), pauses, batch, 0, result)
    {
      assert Repeat(batch, 1) == [batch];
      result := inner.Export(batch);
    }

    method TryAgain(batch: seq<Item>, i: nat, ghost seen: seq<seq<Item>>, ghost paused: seq<nat>)
      returns (result: Result)
      requires hasRuntime && i < |backoff|
      requires Retried(seen, paused, batch, i, inner.answers(|seen| + i))
      modifies this`pauses, inner
      ensures Retried(seen, paused, batch, i + 1, result)
    {
      TakeNext(backoff, i);
      Pause(backoff[i]);
      result := inner.Export(batch);
    }

    method ExportLogs(batch: seq<Item>) returns (result: Result)
      modifies this`pauses, inner
      ensures Retried(old(inner.seen), old(pauses), batch, Retries(|old(inner.seen)|), result)
      ensures StopsAfter(|old(inner.seen)|, Retries(|old(inner.seen)|))
    {
      var records := batch;
      result := TryFirst(records);
      if !hasRuntime {
        return result;
      }
      var i := 0;
      while i < |backoff|
        invariant i <= |backoff|
        invariant Retried(old(inner.seen), old(pauses), batch, i, result)
        invariant RefusedFor(inner.answers, |old(inner.seen)|, i)
      {
        if !IsUnavailable(result) {
          break;
        }
        result := TryAgain(records, i, old(inner.seen), old(pauses));
        i := i + 1;
      }
      RefusalsEnd(inner.answers, |old(inner.seen)|, |backoff|, i);
    }

    method ExportSpans(batch: seq<Item>) returns (result: Result)
      modifies this`pauses, inner
      ensures Retried(old(inner.seen), old(pauses), batch, Retries(|old(inner.seen)|), result)
      ensures StopsAfter(|old(inner.seen)|, Retries(|old(inner.seen)|))
    {
      if !hasRuntime {
        result := TryFirst(batch);
        return result;
      }
      result := TryFirst(batch);
      var i := 0;
      while i < |backoff|
        invariant i <= |backoff|
        invariant Retried(old(inner.seen), old(pauses), batch, i, result)
        invariant RefusedFor(inner.answers, |old(inner.seen)|, i)
      {
        if !IsUnavailable(result) {
          break;
        }
        result := TryAgain(batch, i, old(inner.seen), old(pauses));
        i := i + 1;
      }
      RefusalsEnd(inner.answers, |old(inner.seen)|, |backoff|, i);
    }
  }

  // An export is lost as unavailable exactly when every attempt allowed, one more
  // than there are delays, was refused; any other answer is returned at once.
  lemma LostOnlyWhenAllRefused(answers: nat -> Result, first: nat, delays: nat)
    ensures IsUnavailable(answers(first + LeadingRefusals(answers, first, delays)))
        <==> forall j :: first <= j <= first + delays ==> IsUnavailable(answers(j))
    ensures forall j :: first <= j <= first + delays && !IsUnavailable(answers(j)) ==>
              LeadingRefusals(answers, first, delays) <= j - first
  {
    var n := LeadingRefusals(answers, first, delays);
    assert n < delays ==> !IsUnavailable(answers(first + n));
  }
}
