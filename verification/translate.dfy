/** The translation stage of backend/workers/translate.py: `_translate` posts the
    text to the translation service up to `retries` times with a linear back-off,
    and `translate_text` forwards exactly one synthesis request per transcript. */
module Translate {
  import opened Wrappers
  import opened Schemas
  import opened Queues

  /** The default of `_translate`'s `retries` parameter. */
  const DefaultRetries: int := 3

  /** The query parameters of one POST. */
  datatype Params = Params(q: string, target: string, source: string, format: string, key: string)

  /** The fixed part of every request: Korean source text, plain-text format. */
  function RequestParams(text: string, targetLang: string, apiKey: string): Params {
    Params(text, targetLang, "ko", "text", apiKey)
  }

  /** What one attempt does (an oracle): a well-formed answer carrying
      `translatedText`, a retried `aiohttp.ClientError`/`asyncio.TimeoutError`
      (an HTTP error status included, through `raise_for_status`), or any other
      exception, such as a body missing the expected keys. */
  datatype Attempt = Answered(translatedText: string) | Retryable | NonRetryable

  /** One call of `_translate`: its return value or exception, the requests sent
      (one per attempt), and the `asyncio.sleep` durations in half-seconds. */
  datatype Run = Run(result: Result<string, Fault>, requests: seq<Params>, delays: seq<nat>)

  /** Attempts `attempt` through `retries`, with `server(k)` the outcome of attempt `k`. */
  function Attempts(p: Params, attempt: nat, retries: int, server: nat -> Attempt): (r: Run)
    requires attempt >= 1
    ensures |r.requests| <= if retries >= attempt then retries - attempt + 1 else 0
    ensures forall i :: 0 <= i < |r.requests| ==> r.requests[i] == p
    ensures |r.delays| <= |r.requests|
    ensures forall i :: 0 <= i < |r.delays| ==> r.delays[i] == attempt + i && server(attempt + i) == Retryable
    ensures r.result.Failure? ==> r.result.error == TranslationError
    decreases retries - attempt + 1
  {
    if attempt > retries then Run(Success(""), [], [])
    else
      match server(attempt)
      case Answered(t) => Run(Success(t), [p], [])
      case NonRetryable => Run(Failure(TranslationError), [p], [])
      case Retryable =>
        var later := Attempts(p, attempt + 1, retries, server);
        var delays := [attempt] + later.delays;
        assert forall i :: 1 <= i < |delays| ==> delays[i] == later.delays[i - 1];
        assert forall i :: 1 <= i < |delays| ==> delays[i] == attempt + i && server(attempt + i) == Retryable;
        Run(later.result, [p] + later.requests, delays)
  }

  /** `_translate`: the key is checked before any request, then attempts 1..retries. */
  function TranslateText(text: string, targetLang: string, apiKey: string, retries: int,
                         server: nat -> Attempt): (r: Run)
    ensures apiKey == "" ==> r == Run(Failure(MissingApiKey), [], [])
    ensures |r.requests| <= if retries > 0 then retries else 0
    ensures forall i :: 0 <= i < |r.requests| ==>
      && r.requests[i].source == "ko" && r.requests[i].format == "text"
      && r.requests[i].target == targetLang && r.requests[i].q == text && r.requests[i].key == apiKey
    ensures forall i :: 0 <= i < |r.delays| ==> r.delays[i] == i + 1 && server(i + 1) == Retryable
  {
    if apiKey == "" then Run(Failure(MissingApiKey), [], [])
    else Attempts(RequestParams(text, targetLang, apiKey), 1, retries, server)
  }

  /** `n` copies of `p`. */
  function Repeat(p: Params, n: nat): (r: seq<Params>)
    ensures |r| == n && forall i :: 0 <= i < n ==> r[i] == p
  {
    seq(n, _ => p)
  }

  /** `lo, lo+1, ..., hi-1`. */
  function Range(lo: nat, hi: nat): (r: seq<nat>)
    requires lo <= hi
    ensures |r| == hi - lo && forall i :: 0 <= i < |r| ==> r[i] == lo + i
  {
    seq(hi - lo, i => lo + i)
  }

  function Sum(xs: seq<nat>): nat {
    if xs == [] then 0 else xs[0] + Sum(xs[1..])
  }

  /** The first attempt that answers ends the loop with its text: no later
      attempt is made, and one back-off follows each earlier failure. */
  lemma {:induction false} FirstAnswerWins(p: Params, attempt: nat, k: nat, retries: int,
                                           server: nat -> Attempt, t: string)
    requires 1 <= attempt <= k <= retries
    requires server(k) == Answered(t)
    requires forall j :: attempt <= j < k ==> server(j) == Retryable
    ensures Attempts(p, attempt, retries, server) == Run(Success(t), Repeat(p, k - attempt + 1), Range(attempt, k))
    decreases k - attempt
  {
    if attempt < k {
      FirstAnswerWins(p, attempt + 1, k, retries, server, t);
      assert [p] + Repeat(p, k - attempt) == Repeat(p, k - attempt + 1);
      assert [attempt] + Range(attempt + 1, k) == Range(attempt, k);
    }
  }

  /** A non-retryable exception at attempt `k` propagates at once. */
  lemma {:induction false} OtherErrorPropagates(p: Params, attempt: nat, k: nat, retries: int,
                                                server: nat -> Attempt)
    requires 1 <= attempt <= k <= retries
    requires server(k) == NonRetryable
    requires forall j :: attempt <= j < k ==> server(j) == Retryable
    ensures Attempts(p, attempt, retries, server) == Run(Failure(TranslationError), Repeat(p, k - attempt + 1), Range(attempt, k))
    decreases k - attempt
  {
    if attempt < k {
      OtherErrorPropagates(p, attempt + 1, k, retries, server);
      assert [p] + Repeat(p, k - attempt) == Repeat(p, k - attempt + 1);
      assert [attempt] + Range(attempt + 1, k) == Range(attempt, k);
    }
  }

  /** When every attempt is retried, all `retries` attempts are made, each is
      followed by its back-off (the last one too), and the result is "". */
  lemma {:induction false} ExhaustedGivesEmpty(p: Params, attempt: nat, retries: int, server: nat -> Attempt)
    requires 1 <= attempt <= retries + 1
    requires forall j :: attempt <= j <= retries ==> server(j) == Retryable
    ensures Attempts(p, attempt, retries, server) == Run(Success(""), Repeat(p, retries - attempt + 1), Range(attempt, retries + 1))
    decreases retries - attempt + 1
  {
    if attempt <= retries {
      ExhaustedGivesEmpty(p, attempt + 1, retries, server);
      assert [p] + Repeat(p, retries - attempt) == Repeat(p, retries - attempt + 1);
      assert [attempt] + Range(attempt + 1, retries + 1) == Range(attempt, retries + 1);
    }
  }

  /** The back-offs after failed attempts 1..n add up to n(n+1)/2 half-seconds. */
  lemma {:induction false} BackoffTotal(n: nat)
    ensures 2 * Sum(Range(1, n + 1)) == n * (n + 1)
  {
    if n > 0 {
      BackoffTotal(n - 1);
      SumAppend(Range(1, n), [n]);
      assert Range(1, n) + [n] == Range(1, n + 1);
    }
  }

  lemma {:induction false} SumAppend(a: seq<nat>, b: seq<nat>)
    ensures Sum(a + b) == Sum(a) + Sum(b)
  {
    if a == [] {
      assert a + b == b;
    } else {
      assert (a + b)[1..] == a[1..] + b;
      SumAppend(a[1..], b);
    }
  }

  /** With the default three retries and three failures, the stage waits
      0.5 s + 1.0 s + 1.5 s and returns "". */
  lemma DefaultExhaustion(text: string, targetLang: string, apiKey: string, server: nat -> Attempt)
    requires apiKey != ""
    requires server(1) == Retryable && server(2) == Retryable && server(3) == Retryable
    ensures var r := TranslateText(text, targetLang, apiKey, DefaultRetries, server);
      r.result == Success("") && |r.requests| == 3 && r.delays == [1, 2, 3] && Sum(r.delays) == 6
  {
    ExhaustedGivesEmpty(RequestParams(text, targetLang, apiKey), 1, DefaultRetries, server);
    BackoffTotal(3);
    assert Range(1, 4) == [1, 2, 3];
  }

  /** `_translate` as the source writes it, a `for attempt in range(1, retries + 1)`
      loop with an early `return`; it computes exactly `TranslateText`. */
  method TranslateLoop(text: string, targetLang: string, apiKey: string, retries: int,
                       server: nat -> Attempt) returns (r: Run)
    ensures r == TranslateText(text, targetLang, apiKey, retries, server)
  {
    if apiKey == "" {
      return Run(Failure(MissingApiKey), [], []);
    }
    var p := RequestParams(text, targetLang, apiKey);
    ghost var full := Attempts(p, 1, retries, server);
    var requests: seq<Params> := [];
    var delays: seq<nat> := [];
    var attempt: nat := 1;
    while attempt <= retries
      invariant 1 <= attempt
      invariant full.result == Attempts(p, attempt, retries, server).result
      invariant full.requests == requests + Attempts(p, attempt, retries, server).requests
      invariant full.delays == delays + Attempts(p, attempt, retries, server).delays
      decreases retries - attempt + 1
    {
      ghost var cur := Attempts(p, attempt, retries, server);
      ghost var later := Attempts(p, attempt + 1, retries, server);
      ghost var before := (requests, delays);
      requests := requests + [p];
      match server(attempt)
      case Answered(t) =>
        assert cur.requests == [p] && cur.delays == [];
        assert full.delays == delays;
        return Run(Success(t), requests, delays);
      case NonRetryable =>
        assert cur.requests == [p] && cur.delays == [];
        assert full.delays == delays;
        return Run(Failure(TranslationError), requests, delays);
      case Retryable =>
        delays := delays + [attempt];
        assert cur.requests == [p] + later.requests;
        assert cur.delays == [attempt] + later.delays;
        assert before.0 + ([p] + later.requests) == requests + later.requests;
        assert before.1 + ([attempt] + later.delays) == delays + later.delays;
        attempt := attempt + 1;
    }
    assert Attempts(p, attempt, retries, server) == Run(Success(""), [], []);
    assert full.requests == requests && full.delays == delays;
    r := Run(Success(""), requests, delays);
  }

  /** One turn of `translate_text` (which has no `try`): a `None` text leaves the
      loop; otherwise exactly one `TTSRequest` with the same client and channel is
      put, even when the translation is ""; an exception from `_translate` ends the
      loop. `task_done` is never called on this queue. */
  function Step(c: Conduits, apiKey: string, server: nat -> Attempt): (r: WorkerStep)
    ensures r.Idle? <==> c.sttOutput.items == []
    ensures !r.Idle? ==> r.after.sttOutput.items == c.sttOutput.items[1..]
    ensures !r.Idle? ==> r.after.sttOutput.unfinished == c.sttOutput.unfinished
    ensures !r.Idle? ==> r.after.sttInput == c.sttInput && r.after.ttsOutput == c.ttsOutput
    ensures r.Stopped? <==> c.sttOutput.items != [] && c.sttOutput.items[0].text.None?
    ensures r.Stopped? || r.Crashed? ==> r.after.ttsInput == c.ttsInput
    ensures r.Crashed? ==> apiKey == "" || r.fault == TranslationError
    ensures r.Continued? ==> var t := c.sttOutput.items[0];
      var run := TranslateText(t.text.value, t.targetLang, apiKey, DefaultRetries, server);
      && run.result.Success?
      && r.after.ttsInput == Put(c.ttsInput, Some(TTSRequest(t.clientId, t.targetLang, run.result.value)))
    ensures c.sttOutput.items != [] && c.sttOutput.items[0].text.Some? ==>
      var t := c.sttOutput.items[0];
      var run := TranslateText(t.text.value, t.targetLang, apiKey, DefaultRetries, server);
      && (r.Continued? <==> run.result.Success?)
      && (r.Crashed? <==> run.result.Failure?)
      && (r.Crashed? ==> r.fault == run.result.error)
  {
    match Get(c.sttOutput)
    case Waiting => Idle
    case Taken(t, rest) =>
      if t.text.None? then Stopped(c.(sttOutput := rest))
      else
        var run := TranslateText(t.text.value, t.targetLang, apiKey, DefaultRetries, server);
        match run.result
        case Failure(fault) => Crashed(c.(sttOutput := rest), fault)
        case Success(translated) =>
          Continued(c.(sttOutput := rest,
                       ttsInput := Put(c.ttsInput, Some(TTSRequest(t.clientId, t.targetLang, translated)))))
  }
}
