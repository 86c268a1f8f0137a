/** Fetching a page with a bounded number of attempts and a linear backoff
    between them. The network is an oracle `respond`: `respond(k)` is what the
    k-th request (0-based) yields, a response text or a request exception.
    Sleeping is not performed; the durations are returned as data. */
module Fetch {
  import opened Dom

  datatype Attempt = Ok(text: string) | Failed

  /** What one call of the fetcher did: its result, the sleeps it took in
      order, and how many requests it sent. */
  datatype Trace = Trace(result: Option<string>, sleeps: seq<int>, attempts: nat)

  const DefaultRetries: int := 3
  const DefaultDelay: int := 10

  /** The behaviour of the attempts numbered `k` up to `retries - 1`: the first
      successful one ends the call; each failed one is followed by a sleep of
      `delay * (k + 1)`, the last one included. */
  function Schedule(respond: nat -> Attempt, k: nat, retries: int, delay: int): Trace
    decreases retries - k
  {
    if k >= retries then Trace(None, [], 0)
    else match respond(k)
      case Ok(t) => Trace(Some(t), [], 1)
      case Failed =>
        var rest := Schedule(respond, k + 1, retries, delay);
        Trace(rest.result, [delay * (k + 1)] + rest.sleeps, 1 + rest.attempts)
  }

  /** The retry loop of the fetcher. */
  method FetchHtml(respond: nat -> Attempt, retries: int, delay: int)
    returns (result: Option<string>, sleeps: seq<int>, attempts: nat)
    ensures Trace(result, sleeps, attempts) == Schedule(respond, 0, retries, delay)
  {
    sleeps, attempts := [], 0;
    var attempt: nat := 0;
    while attempt < retries
      invariant attempts == attempt
      invariant retries >= 0 ==> attempt <= retries
      invariant var s := Schedule(respond, attempt, retries, delay);
        Schedule(respond, 0, retries, delay) == Trace(s.result, sleeps + s.sleeps, attempts + s.attempts)
      decreases retries - attempt
    {
      attempts := attempts + 1;
      match respond(attempt)
      case Ok(t) =>
        return Some(t), sleeps, attempts;
      case Failed =>
        var rest := Schedule(respond, attempt + 1, retries, delay);
        assert sleeps + ([delay * (attempt + 1)] + rest.sleeps)
            == (sleeps + [delay * (attempt + 1)]) + rest.sleeps;
        sleeps := sleeps + [delay * (attempt + 1)];
      attempt := attempt + 1;
    }
    result := None;
  }

  /** The shape of a trace from attempt `k` on: the sleeps follow failed
      attempts and grow linearly, a result is the text of the first success,
      and no result means every attempt up to the budget failed. */
  lemma {:induction false} ScheduleShape(respond: nat -> Attempt, k: nat, retries: int, delay: int)
    ensures var t := Schedule(respond, k, retries, delay);
      && t.attempts == |t.sleeps| + (if t.result.Some? then 1 else 0)
      && (forall i :: 0 <= i < |t.sleeps| ==> t.sleeps[i] == delay * (k + i + 1))
      && (forall j :: k <= j < k + |t.sleeps| ==> respond(j).Failed?)
      && (t.result.Some? ==> k + |t.sleeps| < retries && respond(k + |t.sleeps|) == Ok(t.result.value))
      && (t.result.None? ==> t.attempts == (if retries > k then retries - k else 0))
    decreases retries - k
  {
    if k < retries && respond(k).Failed? {
      ScheduleShape(respond, k + 1, retries, delay);
      var rest := Schedule(respond, k + 1, retries, delay);
      var t := Schedule(respond, k, retries, delay);
      forall i | 0 <= i < |t.sleeps| ensures t.sleeps[i] == delay * (k + i + 1) {
        if i > 0 { assert t.sleeps[i] == rest.sleeps[i - 1]; }
      }
    }
  }

  /** The fetcher never sends more than `retries` requests, and it returns the
      text of the first successful request within that budget, if any. */
  lemma FirstSuccessWins(respond: nat -> Attempt, retries: int, delay: int)
    ensures var t := Schedule(respond, 0, retries, delay);
      && t.attempts <= (if retries > 0 then retries else 0)
      && (t.result.Some? <==> exists j :: 0 <= j < retries && respond(j).Ok?)
      && (t.result.Some? ==> exists j :: 0 <= j < retries && respond(j) == Ok(t.result.value)
                                         && forall i :: 0 <= i < j ==> respond(i).Failed?)
  {
    ScheduleShape(respond, 0, retries, delay);
  }

  /** After the k-th failed attempt (0-based) the fetcher sleeps exactly
      `delay * (k + 1)`; when every attempt fails it sleeps once per attempt. */
  lemma BackoffIsLinear(respond: nat -> Attempt, retries: int, delay: int)
    ensures var t := Schedule(respond, 0, retries, delay);
      && (forall k :: 0 <= k < |t.sleeps| ==> t.sleeps[k] == delay * (k + 1))
      && (t.result.None? ==> |t.sleeps| == t.attempts == (if retries > 0 then retries else 0))
  {
    ScheduleShape(respond, 0, retries, delay);
  }

  /** With the default budget and delay, a fetch that always fails sleeps
      10, 20 and 30 and returns nothing. */
  lemma DefaultsAllFail(respond: nat -> Attempt)
    requires forall k :: respond(k) == Failed
    ensures Schedule(respond, 0, DefaultRetries, DefaultDelay) == Trace(None, [10, 20, 30], 3)
  {
    assert Schedule(respond, 3, 3, 10) == Trace(None, [], 0);
    assert Schedule(respond, 2, 3, 10) == Trace(None, [30], 1);
  }

  /** With the default budget and delay, two failures and then a success
      return the third response after sleeping 10 and then 20. */
  lemma DefaultsThirdSucceeds(respond: nat -> Attempt, page: string)
    requires respond(0) == Failed && respond(1) == Failed && respond(2) == Ok(page)
    ensures Schedule(respond, 0, DefaultRetries, DefaultDelay) == Trace(Some(page), [10, 20], 3)
  {
    assert Schedule(respond, 2, 3, 10) == Trace(Some(page), [], 1);
  }
}
