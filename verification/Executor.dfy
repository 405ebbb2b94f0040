/**
 * The retrying request executor. A run is driven by fates that fix, attempt by attempt,
 * everything outside the client: the credential, the network, the server's answer, the
 * context, the random draw and the decoding of the body.
 */
module Executor {
  import opened Backoff
  import opened Base
  import opened Int64

  /** Header names in canonical form, with the two that matter to a retry told apart. */
  datatype HeaderName = Authorization | IdempotencyKey | Other(name: string)

  type Headers = map<HeaderName, string>

  /** A request as it leaves the client. */
  datatype Wire = Wire(verb: string, url: string, headers: Headers, body: seq<byte>)

  /** until is the distance of a Retry-After date from now, if the header holds one. */
  datatype Reply = Reply(status: int, retryAfter: string, until: Option<int64>, body: seq<byte>)

  predicate Success(status: int) {
    200 <= status < 300
  }

  predicate Temporary(status: int) {
    status == 429 || status >= 500
  }

  /** Unsent loses the request after reading some of its body; ReplyLost loses only the answer. */
  datatype Net = Unsent(read: nat) | ReplyLost | Delivered(reply: Reply)

  datatype Fate = Fate(
    rewindOk: bool,
    credential: Option<string>,
    ctxAtSend: bool,
    net: Net,
    ctxAfter: bool,
    draw: nat,
    ctxAtWait: bool,
    decodeOk: bool)

  /** The fates of all attempts a client ever makes, in order. */
  type Fates = nat -> Fate

  /** Sent says whether the server got the request; Received is the answer reaching the client. */
  datatype Event =
    | Authenticated(credential: string)
    | Sent(wire: Wire, arrived: bool)
    | Received(reply: Reply)
    | Closed
    | Slept(d: int64)

  datatype Outcome =
    | RewindFailed
    | AuthFailed
    | Canceled
    | TransportFailed
    | WaitCanceled(last: Option<Reply>)
    | Failed(reply: Reply)
    | DecodeFailed(reply: Reply)
    | Succeeded(reply: Reply)

  /** What newRequest fixes for all attempts. */
  datatype Call = Call(verb: string, url: string, headers: Headers, payload: Option<seq<byte>>)

  function WireOf(call: Call, credential: string): Wire {
    Wire(call.verb, call.url, call.headers[Authorization := credential],
         if call.payload.Some? then call.payload.value else [])
  }

  // ---------------------------------------------------------------- specification of a run

  /** What one attempt does: its events, and the outcome unless another attempt follows. */
  datatype Step = Step(events: seq<Event>, outcome: Option<Outcome>) {
    function After(es: seq<Event>): Step {
      Step(es + events, outcome)
    }
  }

  function AfterError(p: Policy, attempt: nat, f: Fate): (step: Step)
    ensures step.outcome.None? ==> attempt < p.maxRetries
  {
    if f.ctxAtSend || f.ctxAfter then
      Step([], Some(Canceled))
    else if attempt < p.maxRetries then
      Step([Slept(RetryWait(p, attempt, f.draw, 0))], if f.ctxAtWait then Some(WaitCanceled(None)) else None)
    else
      Step([], Some(TransportFailed))
  }

  function AfterReply(p: Policy, attempt: nat, f: Fate, r: Reply): (step: Step)
    ensures step.outcome.None? ==> attempt < p.maxRetries
  {
    if !Success(r.status) && Temporary(r.status) && attempt < p.maxRetries then
      var d := RetryWait(p, attempt, f.draw, RetryAfter(r.retryAfter, r.until));
      Step([Closed, Slept(d)], if f.ctxAtWait then Some(WaitCanceled(Some(r))) else None)
    else if !Success(r.status) then
      Step([Closed], Some(Failed(r)))
    else
      Step([Closed], Some(if f.decodeOk then Succeeded(r) else DecodeFailed(r)))
  }

  function Attempt(p: Policy, call: Call, attempt: nat, f: Fate): (step: Step)
    ensures step.outcome.None? ==> attempt < p.maxRetries
  {
    if attempt > 0 && call.payload.Some? && !f.rewindOk then
      Step([], Some(RewindFailed))
    else if f.credential.None? then
      Step([], Some(AuthFailed))
    else if !f.ctxAtSend && f.net.Delivered? then
      AfterReply(p, attempt, f, f.net.reply).After(Opening(call, f))
    else
      AfterError(p, attempt, f).After(Opening(call, f))
  }

  /** The events of an attempt up to the point where the transport returns. */
  function Opening(call: Call, f: Fate): seq<Event>
    requires f.credential.Some?
  {
    var auth := [Authenticated(f.credential.value)];
    if f.ctxAtSend then auth
    else
      var es := auth + [Sent(WireOf(call, f.credential.value), !f.net.Unsent?)];
      if f.net.Delivered? then es + [Received(f.net.reply)] else es
  }

  /** The events of a run, one list per attempt. */
  datatype Run = Run(attempts: seq<seq<Event>>, outcome: Outcome)

  /** The run from the given attempt on; base is where the run's first attempt sits among the fates. */
  function RunFrom(p: Policy, call: Call, fates: Fates, base: nat, attempt: nat): Run
    decreases p.maxRetries - attempt
  {
    var step := Attempt(p, call, attempt, fates(base + attempt));
    if step.outcome.Some? then
      Run([step.events], step.outcome.value)
    else
      var rest := RunFrom(p, call, fates, base, attempt + 1);
      Run([step.events] + rest.attempts, rest.outcome)
  }

  /** One call of Do. */
  function RunOf(p: Policy, call: Call, fates: Fates, base: nat): Run {
    RunFrom(p, call, fates, base, 0)
  }

  /** The run is whole once the finished attempts are followed by the rest of the run. */
  ghost predicate Pending(whole: Run, finished: seq<seq<Event>>, p: Policy, call: Call, fates: Fates, base: nat) {
    var rest := RunFrom(p, call, fates, base, |finished|);
    whole == Run(finished + rest.attempts, rest.outcome)
  }

  /** Performing one more attempt leaves the run pending, or completes it. */
  lemma PendingStep(whole: Run, finished: seq<seq<Event>>, p: Policy, call: Call, fates: Fates, base: nat, step: Step)
    requires Pending(whole, finished, p, call, fates, base)
    requires step == Attempt(p, call, |finished|, fates(base + |finished|))
    ensures Flatten(finished + [step.events]) == Flatten(finished) + step.events
    ensures step.outcome.None? ==> Pending(whole, finished + [step.events], p, call, fates, base)
    ensures step.outcome.Some? ==> whole == Run(finished + [step.events], step.outcome.value)
  {
    FlattenSnoc(finished, step.events);
    if step.outcome.None? {
      ConcatAssociative(finished, [step.events], RunFrom(p, call, fates, base, |finished| + 1).attempts);
    }
  }

  // ---------------------------------------------------------------- the language of a run

  /** Attempt k when another one follows: a transport error or a temporary status, and a wait. */
  predicate RetriedAttempt(p: Policy, call: Call, k: nat, es: seq<Event>) {
    && (|es| == 3 || |es| == 5)
    && es[0].Authenticated?
    && es[1].Sent? && es[1].wire == WireOf(call, es[0].credential)
    && (|es| == 5 ==> es[1].arrived && es[2].Received? && Temporary(es[2].reply.status) && es[3] == Closed)
    && es[|es| - 1].Slept?
    && ProperWait(p, k, es[|es| - 1].d, if |es| == 5 then Some(es[2].reply) else None)
  }

  /** A positive Retry-After is honored up to the maximum; otherwise the wait is a jittered backoff. */
  predicate ProperWait(p: Policy, k: nat, d: int64, reply: Option<Reply>) {
    var asked := if reply.Some? then RetryAfter(reply.value.retryAfter, reply.value.until) else 0;
    if asked > 0 then d == Min(asked, p.waitMax)
    else p.waitMin <= d <= Max(p.waitMin, Ceiling(p, k))
  }

  /** Attempt k when the run ends with it. */
  predicate LastAttempt(p: Policy, call: Call, k: nat, es: seq<Event>, outcome: Outcome) {
    var sent := |es| >= 2 && es[0].Authenticated? && es[1].Sent? && es[1].wire == WireOf(call, es[0].credential);
    match outcome
    case RewindFailed => es == [] && k > 0
    case AuthFailed => es == []
    case Canceled => (|es| == 1 && es[0].Authenticated?) || (|es| == 2 && sent)
    case TransportFailed => |es| == 2 && sent && k == p.maxRetries
    case WaitCanceled(None) => |es| == 3 && RetriedAttempt(p, call, k, es) && k < p.maxRetries
    case WaitCanceled(Some(r)) =>
      |es| == 5 && RetriedAttempt(p, call, k, es) && es[2] == Received(r) && k < p.maxRetries
    case Failed(r) =>
      && |es| == 4 && sent && es[1].arrived && es[2..] == [Received(r), Closed]
      && !Success(r.status) && (Temporary(r.status) ==> k == p.maxRetries)
    case DecodeFailed(r) => |es| == 4 && sent && es[1].arrived && es[2..] == [Received(r), Closed] && Success(r.status)
    case Succeeded(r) => |es| == 4 && sent && es[1].arrived && es[2..] == [Received(r), Closed] && Success(r.status)
  }

  /** The attempts first, first + 1, ... of a run up to its end. */
  predicate InLanguage(p: Policy, call: Call, first: nat, r: Run) {
    var n := |r.attempts|;
    && 1 <= n <= p.maxRetries + 1 - first
    && (forall k :: 0 <= k < n - 1 ==> RetriedAttempt(p, call, first + k, r.attempts[k]))
    && LastAttempt(p, call, first + n - 1, r.attempts[n - 1], r.outcome)
  }

  /**
   * Every run makes at most maxRetries + 1 attempts and returns the outcome of the last one;
   * all earlier ones ended in a transport error or a temporary status, closed the body they
   * received, and waited. Every request sent carries the buffered payload.
   */
  lemma {:induction false} RunLanguage(p: Policy, call: Call, fates: Fates, base: nat, attempt: nat)
    requires p.Valid() && attempt <= p.maxRetries
    ensures InLanguage(p, call, attempt, RunFrom(p, call, fates, base, attempt))
    decreases p.maxRetries - attempt
  {
    AttemptLanguage(p, call, attempt, fates(base + attempt));
    var step := Attempt(p, call, attempt, fates(base + attempt));
    if step.outcome.None? {
      RunLanguage(p, call, fates, base, attempt + 1);
      LanguageCons(p, call, attempt, step.events, RunFrom(p, call, fates, base, attempt + 1));
    }
  }

  lemma LanguageCons(p: Policy, call: Call, first: nat, es: seq<Event>, rest: Run)
    requires RetriedAttempt(p, call, first, es) && InLanguage(p, call, first + 1, rest)
    ensures InLanguage(p, call, first, Run([es] + rest.attempts, rest.outcome))
  {
    var r := Run([es] + rest.attempts, rest.outcome);
    assert forall k :: 0 < k < |r.attempts| ==> r.attempts[k] == rest.attempts[k - 1];
  }

  lemma AttemptLanguage(p: Policy, call: Call, attempt: nat, f: Fate)
    requires p.Valid() && attempt <= p.maxRetries
    ensures var step := Attempt(p, call, attempt, f);
            if step.outcome.None? then RetriedAttempt(p, call, attempt, step.events)
            else LastAttempt(p, call, attempt, step.events, step.outcome.value)
  {
    WaitWithinBounds(p, attempt, f.draw);
  }

  // ---------------------------------------------------------------- consequences

  function CountSent(es: seq<Event>): nat {
    if es == [] then 0 else (if es[0].Sent? then 1 else 0) + CountSent(es[1..])
  }

  function TotalSleep(es: seq<Event>): int {
    if es == [] then 0 else (if es[0].Slept? then es[0].d else 0) + TotalSleep(es[1..])
  }

  /** Opened minus closed response bodies. */
  function OpenBodies(es: seq<Event>): int {
    if es == [] then 0
    else (match es[0] case Received(_) => 1 case Closed => -1 case _ => 0) + OpenBodies(es[1..])
  }

  lemma {:induction false} CountsAppend(a: seq<Event>, b: seq<Event>)
    ensures CountSent(a + b) == CountSent(a) + CountSent(b)
    ensures TotalSleep(a + b) == TotalSleep(a) + TotalSleep(b)
    ensures OpenBodies(a + b) == OpenBodies(a) + OpenBodies(b)
  {
    if a == [] {
      assert a + b == b;
    } else {
      assert (a + b)[1..] == a[1..] + b;
      CountsAppend(a[1..], b);
    }
  }

  lemma AttemptCounts(p: Policy, call: Call, k: nat, es: seq<Event>, outcome: Outcome)
    requires p.Valid()
    requires RetriedAttempt(p, call, k, es) || LastAttempt(p, call, k, es, outcome)
    ensures CountSent(es) <= 1 && OpenBodies(es) == 0
    ensures 0 <= TotalSleep(es) <= p.waitMax
    ensures !RetriedAttempt(p, call, k, es) ==> TotalSleep(es) == 0
  {
    Peel(es);
  }

  /** Unrolls the counts of a short list of events. */
  lemma Peel(es: seq<Event>)
    ensures es[0..] == es && es[|es|..] == []
    ensures forall i {:trigger es[i]} :: 0 <= i < |es| ==>
      && CountSent(es[i..]) == (if es[i].Sent? then 1 else 0) + CountSent(es[i + 1..])
      && TotalSleep(es[i..]) == (if es[i].Slept? then es[i].d else 0) + TotalSleep(es[i + 1..])
      && OpenBodies(es[i..]) == (match es[i] case Received(_) => 1 case Closed => -1 case _ => 0)
        + OpenBodies(es[i + 1..])
  {
    forall i | 0 <= i < |es|
      ensures es[i..][1..] == es[i + 1..] && es[i..][0] == es[i]
    {
    }
  }

  /**
   * Accounting over a whole run: at most maxRetries + 1 requests leave the client, every body
   * received has been closed, and the waits requested sum to at most maxRetries * waitMax.
   */
  lemma RunAccounting(p: Policy, call: Call, fates: Fates, base: nat)
    requires p.Valid()
    ensures var es := Flatten(RunOf(p, call, fates, base).attempts);
            && CountSent(es) <= p.maxRetries + 1
            && OpenBodies(es) == 0
            && 0 <= TotalSleep(es) <= p.maxRetries * p.waitMax
  {
    RunLanguage(p, call, fates, base, 0);
    SumAttempts(p, call, 0, RunOf(p, call, fates, base));
  }

  lemma {:induction false} SumAttempts(p: Policy, call: Call, first: nat, r: Run)
    requires p.Valid() && InLanguage(p, call, first, r)
    ensures var es := Flatten(r.attempts);
            && CountSent(es) <= p.maxRetries + 1 - first
            && OpenBodies(es) == 0
            && 0 <= TotalSleep(es) <= (p.maxRetries - first) * p.waitMax
    decreases |r.attempts|
  {
    var es := r.attempts[0];
    AttemptCounts(p, call, first, es, r.outcome);
    CountsAppend(es, Flatten(r.attempts[1..]));
    if first < p.maxRetries {
      OneMore(p.maxRetries - first - 1, p.waitMax);
    }
    if |r.attempts| == 1 {
      assert r.attempts[1..] == [];
    } else {
      SumAttempts(p, call, first + 1, Tail(p, call, first, r));
    }
  }

  lemma OneMore(n: nat, w: nat)
    ensures (n + 1) * w == n * w + w && n * w >= 0
  {
  }

  ghost function Tail(p: Policy, call: Call, first: nat, r: Run): (rest: Run)
    requires InLanguage(p, call, first, r) && |r.attempts| > 1
    ensures InLanguage(p, call, first + 1, rest)
  {
    var rest := r.(attempts := r.attempts[1..]);
    assert forall k :: 0 <= k < |rest.attempts| ==> rest.attempts[k] == r.attempts[k + 1];
    rest
  }

  /** Whether the context is seen done anywhere in the attempt. */
  predicate ContextDone(f: Fate) {
    f.ctxAtSend || f.ctxAfter || f.ctxAtWait
  }

  /** From one attempt of a run to another, a context that is done stays done. */
  ghost predicate ContextMonotone(fates: Fates, first: nat, last: nat) {
    forall i, j :: first <= i < j <= last && ContextDone(fates(i)) ==> fates(j).ctxAtSend
  }

  /** Once the context is done in attempt k, no later attempt puts a request on the wire. */
  lemma {:induction false} NoSendAfterCancel(
      p: Policy, call: Call, fates: Fates, base: nat, attempt: nat, k: nat, j: nat)
    requires p.Valid() && attempt <= p.maxRetries
    requires ContextMonotone(fates, base + attempt, base + attempt + j) && ContextDone(fates(base + attempt + k))
    requires k < j < |RunFrom(p, call, fates, base, attempt).attempts|
    ensures CountSent(RunFrom(p, call, fates, base, attempt).attempts[j]) == 0
    decreases k
  {
    if k > 0 {
      NoSendAfterCancel(p, call, fates, base, attempt + 1, k - 1, j - 1);
    } else {
      var next := Attempt(p, call, attempt + 1, fates(base + attempt + 1));
      assert fates(base + (attempt + 1)).ctxAtSend;
      assert next.outcome.Some? && CountSent(next.events) == 0;
    }
  }
}
