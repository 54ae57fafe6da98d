/**
 The HEAD-then-GET probe of one URL (`check_one_url`), with the network
 replaced by a script: `network(i)` is what the server and the transport
 would do on attempt `i`. The probe is a pure function of that script and
 of the retry count; it returns the `(status, reason)` pair together with
 a trace of the requests issued and the backoff sleeps taken.
 */
module Probe {
  import opened Wrappers

  /** Retries after the first attempt when the caller gives none. */
  const RETRY_COUNT: int := 1
  /** Seconds slept before retrying after a GET transport failure. */
  const BACKOFF: nat := 2

  /** The exception classes the GET handlers test, in the order they test them. */
  datatype ErrorClass = TimeoutError | ClientConnectorError | ClientError | OSError

  /**
   The classes a raised exception is an instance of. An aiohttp connection error
   is a ClientConnectorError, a ClientError and an OSError at once; a timeout
   raised by aiohttp is a TimeoutError and a ClientError.
   */
  type Classes = s: set<ErrorClass> | s != {} witness {OSError}

  /** What the HEAD request yields: a response, or any caught exception. */
  datatype HeadResult = HeadStatus(code: int, reason: Option<string>) | HeadFailed

  /** What the GET request yields: a response, or an exception with its message. */
  datatype GetResult = GetStatus(code: int, reason: Option<string>) | GetFailed(classes: Classes, msg: string)

  /** The network's behaviour on one attempt. */
  datatype Exchange = Exchange(head: HeadResult, get: GetResult)

  /** The `(status, reason)` pair; `status` is None when no response code was obtained. */
  datatype Outcome = Outcome(status: Option<int>, reason: string)

  /** Requests issued and sleeps taken (each sleep's length, in seconds). */
  datatype Trace = Trace(attempts: nat, heads: nat, gets: nat, sleeps: seq<nat>)

  datatype ProbeResult = ProbeResult(outcome: Outcome, trace: Trace)

  const UnknownError := Outcome(None, "Unknown error")

  /** Python's `reason or fallback` for an optional reason phrase: None and "" are false. */
  function ReasonOr(reason: Option<string>, fallback: string): (r: string)
    ensures reason.Some? && reason.value != "" ==> r == reason.value
    ensures reason.None? || reason.value == "" ==> r == fallback
  {
    if reason.Some? && reason.value != "" then reason.value else fallback
  }

  /** The HEAD half of an attempt: a final outcome, or None when the attempt goes on to GET. */
  function HeadVerdict(h: HeadResult): Option<Outcome>
  {
    match h
    case HeadStatus(code, reason) =>
      if code < 400 then Some(Outcome(Some(code), "OK"))
      else if code == 405 then None
      else Some(Outcome(Some(code), ReasonOr(reason, "Error")))
    case HeadFailed => None
  }

  /** The reason given for a GET exception: the first handler whose class matches decides. */
  function FailureReason(classes: Classes, msg: string): string
  {
    if TimeoutError in classes then "Timeout"
    else if ClientConnectorError in classes then "Connection failed"
    else if ClientError in classes then "Client error: " + msg
    else "OS error: " + msg
  }

  /** A GET that answers ends the probe; a GET that fails is retried while attempts remain. */
  predicate GetAnswered(g: GetResult)
  {
    g.GetStatus?
  }

  /** The outcome of a GET: its response, or the outcome reported once no retry is left. */
  function GetOutcome(g: GetResult): Outcome
  {
    match g
    case GetStatus(code, reason) => Outcome(Some(code), ReasonOr(reason, if code < 400 then "OK" else "Error"))
    case GetFailed(classes, msg) => Outcome(None, FailureReason(classes, msg))
  }

  /** An attempt that would be retried: HEAD gave no verdict and GET failed. */
  predicate Transient(ex: Exchange)
  {
    HeadVerdict(ex.head).None? && !GetAnswered(ex.get)
  }

  /** The outcome an attempt reports when it is the one that ends the probe. */
  function Settle(ex: Exchange): Outcome
  {
    match HeadVerdict(ex.head)
    case Some(o) => o
    case None => GetOutcome(ex.get)
  }

  /**
   Attempts `attempt`, `attempt + 1`, ... of `for attempt in range(1 + retries)`.
   The trace counts only these attempts. Every attempt but the last one failed
   transiently and was followed by one backoff sleep; the last one is either the
   final permitted attempt or one that did not fail transiently, and it decides
   the outcome. When the range is empty the fallback "Unknown error" is returned.
   */
  function Attempts(network: nat -> Exchange, retries: int, attempt: nat): (p: ProbeResult)
    ensures p.trace.heads == p.trace.attempts
    ensures p.trace.attempts == 0 <==> retries < attempt
    ensures p.trace.attempts <= if attempt <= retries then retries + 1 - attempt else 0
    ensures p.trace.attempts == 0 ==> p.outcome == UnknownError && p.trace == Trace(0, 0, 0, [])
    ensures p.trace.attempts > 0 ==> |p.trace.sleeps| == p.trace.attempts - 1
    ensures forall k :: 0 <= k < |p.trace.sleeps| ==> p.trace.sleeps[k] == BACKOFF
    ensures forall i :: attempt <= i < attempt + p.trace.attempts - 1 ==> Transient(network(i))
    ensures p.trace.attempts > 0 ==>
              var last := attempt + p.trace.attempts - 1;
              && (last == retries || !Transient(network(last)))
              && p.outcome == Settle(network(last))
              && p.trace.gets == |p.trace.sleeps| + (if HeadVerdict(network(last).head).None? then 1 else 0)
    decreases retries + 1 - attempt
  {
    if retries < attempt then
      ProbeResult(UnknownError, Trace(0, 0, 0, []))
    else
      var ex := network(attempt);
      match HeadVerdict(ex.head)
      case Some(o) =>
        ProbeResult(o, Trace(1, 1, 0, []))
      case None =>
        if GetAnswered(ex.get) || retries <= attempt then
          ProbeResult(GetOutcome(ex.get), Trace(1, 1, 1, []))
        else
          var rest := Attempts(network, retries, attempt + 1);
          ProbeResult(rest.outcome, Trace(rest.trace.attempts + 1, rest.trace.heads + 1, rest.trace.gets + 1,
                                    [BACKOFF] + rest.trace.sleeps))
  }

  /** `check_one_url(session, url, semaphore, retries)` against the scripted network. */
  function CheckOneUrl(network: nat -> Exchange, retries: int): (p: ProbeResult)
    ensures retries >= 0 ==> 1 <= p.trace.attempts <= 1 + retries
    ensures retries < 0 ==> p == ProbeResult(UnknownError, Trace(0, 0, 0, []))
    ensures p.trace.heads == p.trace.attempts && p.trace.gets <= p.trace.attempts
    ensures |p.trace.sleeps| == if p.trace.attempts == 0 then 0 else p.trace.attempts - 1
    ensures forall k :: 0 <= k < |p.trace.sleeps| ==> p.trace.sleeps[k] == BACKOFF
  {
    Attempts(network, retries, 0)
  }

  /**
   The attempt that ends the probe is the first one that does not fail transiently,
   or the final permitted one: if attempts `0 .. k-1` failed transiently and attempt
   `k` is such an attempt, the probe makes `k + 1` attempts, sleeps `k` times, and
   reports what attempt `k` settles on.
   */
  lemma SettlesAt(network: nat -> Exchange, retries: int, k: nat)
    requires k <= retries
    requires forall i :: 0 <= i < k ==> Transient(network(i))
    requires k == retries || !Transient(network(k))
    ensures var p := CheckOneUrl(network, retries);
            && p.outcome == Settle(network(k))
            && p.trace == Trace(k + 1, k + 1, k + (if HeadVerdict(network(k).head).None? then 1 else 0),
                                seq(k, _ => BACKOFF))
  {
    var p := CheckOneUrl(network, retries);
    assert p.trace.attempts == k + 1;
    assert p.trace.sleeps == seq(k, _ => BACKOFF);
  }

  /**
   A HEAD below 400 ends the probe on the attempt it occurs with that status and
   "OK", whatever reason the server gave: on the first attempt, one HEAD, no GET
   and no sleep.
   */
  lemma HeadSuccess(network: nat -> Exchange, retries: int, k: nat)
    requires k <= retries
    requires forall i :: 0 <= i < k ==> Transient(network(i))
    requires network(k).head.HeadStatus? && network(k).head.code < 400
    ensures CheckOneUrl(network, retries)
            == ProbeResult(Outcome(Some(network(k).head.code), "OK"), Trace(k + 1, k + 1, k, seq(k, _ => BACKOFF)))
  {
    SettlesAt(network, retries, k);
  }

  /**
   A definitive HEAD error (400 or more, not 405) is reported as is: no GET on that
   attempt and no retry after it.
   */
  lemma HeadDefinitiveError(network: nat -> Exchange, retries: int, k: nat)
    requires k <= retries
    requires forall i :: 0 <= i < k ==> Transient(network(i))
    requires network(k).head.HeadStatus? && network(k).head.code >= 400 && network(k).head.code != 405
    ensures CheckOneUrl(network, retries)
            == ProbeResult(Outcome(Some(network(k).head.code), ReasonOr(network(k).head.reason, "Error")),
                     Trace(k + 1, k + 1, k, seq(k, _ => BACKOFF)))
  {
    SettlesAt(network, retries, k);
  }

  /**
   A HEAD 405 or a HEAD transport failure goes on to GET within the same attempt,
   and any GET response is final: no retry follows it.
   */
  lemma EscalateToGet(network: nat -> Exchange, retries: int, k: nat)
    requires k <= retries
    requires forall i :: 0 <= i < k ==> Transient(network(i))
    requires network(k).head == HeadFailed || (network(k).head.HeadStatus? && network(k).head.code == 405)
    requires network(k).get.GetStatus?
    ensures var g := network(k).get;
            CheckOneUrl(network, retries)
            == ProbeResult(Outcome(Some(g.code), ReasonOr(g.reason, if g.code < 400 then "OK" else "Error")),
                     Trace(k + 1, k + 1, k + 1, seq(k, _ => BACKOFF)))
  {
    SettlesAt(network, retries, k);
  }

  /** When every GET times out, all `1 + retries` attempts run and the outcome is a timeout. */
  lemma AllTimeouts(network: nat -> Exchange, retries: int)
    requires retries >= 0
    requires forall i :: HeadVerdict(network(i).head).None?
    requires forall i :: network(i).get.GetFailed? && TimeoutError in network(i).get.classes
    ensures var p := CheckOneUrl(network, retries);
            && p.outcome == Outcome(None, "Timeout")
            && p.trace.attempts == 1 + retries
            && p.trace.gets == 1 + retries
            && p.trace.sleeps == seq(retries, _ => BACKOFF)
  {
    SettlesAt(network, retries, retries);
  }

  /**
   When the last permitted attempt fails on GET, the except clauses classify the
   failure in their order: a timeout first, then a connection failure (although a
   connection error is also a client error and an OS error), then any other client
   error, then an OS error. No status code is reported.
   */
  lemma {:induction false} FinalFailureClassified(network: nat -> Exchange, retries: int)
    requires retries >= 0
    requires forall i :: 0 <= i < retries ==> Transient(network(i))
    requires HeadVerdict(network(retries).head).None? && network(retries).get.GetFailed?
    ensures var p := CheckOneUrl(network, retries);
            var g := network(retries).get;
            && p.trace.attempts == 1 + retries
            && p.outcome.status == None
            && (TimeoutError in g.classes ==> p.outcome.reason == "Timeout")
            && (TimeoutError !in g.classes && ClientConnectorError in g.classes ==> p.outcome.reason == "Connection failed")
            && (TimeoutError !in g.classes && ClientConnectorError !in g.classes && ClientError in g.classes ==>
                  p.outcome.reason == "Client error: " + g.msg)
            && (TimeoutError !in g.classes && ClientConnectorError !in g.classes && ClientError !in g.classes ==>
                  OSError in g.classes && p.outcome.reason == "OS error: " + g.msg)
  {
    var g := network(retries).get;
    if TimeoutError !in g.classes && ClientConnectorError !in g.classes && ClientError !in g.classes {
      var c :| c in g.classes;
      assert c == OSError;
    }
  }

  /** No attempt that ends the probe reports "Unknown error" without a status code. */
  lemma SettleIsNeverUnknown(ex: Exchange)
    ensures Settle(ex) != UnknownError
  {
    if HeadVerdict(ex.head).None? && ex.get.GetFailed? {
      var r := FailureReason(ex.get.classes, ex.get.msg);
      assert r[0] != 'U';
    }
  }

  /** The "Unknown error" fallback is reached exactly when the attempt range is empty. */
  lemma UnknownOnlyWithoutAttempts(network: nat -> Exchange, retries: int)
    ensures CheckOneUrl(network, retries).outcome == UnknownError <==> retries < 0
  {
    var p := CheckOneUrl(network, retries);
    if retries >= 0 {
      SettleIsNeverUnknown(network(p.trace.attempts - 1));
    }
  }
}
