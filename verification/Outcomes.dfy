/**
 * What the fates of a run decide: how many attempts it makes, what each one puts on the wire,
 * how long it waits, and what the caller gets.
 */
module Outcomes {
  import opened Backoff
  import opened Base
  import opened Executor
  import opened Int64

  /** The attempt gets as far as its transport: the body could be rewound, and a credential was found. */
  predicate Reached(call: Call, k: nat, f: Fate) {
    (k == 0 || call.payload.None? || f.rewindOk) && f.credential.Some?
  }

  predicate Answered(f: Fate) {
    !f.ctxAtSend && f.net.Delivered?
  }

  /** Whether a status asks for another attempt. */
  predicate Again(status: int) {
    status == 429 || status >= 500
  }

  /** The attempt fails in a way that is retried, and may be. */
  predicate Retryable(p: Policy, call: Call, k: nat, f: Fate) {
    && Reached(call, k, f) && k < p.maxRetries
    && if Answered(f) then Again(f.net.reply.status) else !f.ctxAtSend && !f.ctxAfter
  }

  /** Attempt k is followed by another: a retryable failure, and a wait that the context survives. */
  predicate Retries(p: Policy, call: Call, k: nat, f: Fate) {
    Retryable(p, call, k, f) && !f.ctxAtWait
  }

  /** What attempt k decides when no other follows it. */
  predicate Decides(p: Policy, call: Call, k: nat, f: Fate, outcome: Outcome) {
    var reply := if Answered(f) then Some(f.net.reply) else None;
    var done := f.ctxAtSend || f.ctxAfter;
    match outcome
    case RewindFailed => k > 0 && call.payload.Some? && !f.rewindOk
    case AuthFailed => (k == 0 || call.payload.None? || f.rewindOk) && f.credential.None?
    case Canceled => Reached(call, k, f) && reply.None? && done
    case TransportFailed => Reached(call, k, f) && reply.None? && !done && k >= p.maxRetries
    case WaitCanceled(last) => Retryable(p, call, k, f) && last == reply && f.ctxAtWait
    case Failed(r) =>
      && Reached(call, k, f) && reply == Some(r)
      && !(200 <= r.status < 300) && (Again(r.status) ==> k >= p.maxRetries)
    case DecodeFailed(r) => Reached(call, k, f) && reply == Some(r) && 200 <= r.status < 300 && !f.decodeOk
    case Succeeded(r) => Reached(call, k, f) && reply == Some(r) && 200 <= r.status < 300 && f.decodeOk
  }

  lemma AttemptDecides(p: Policy, call: Call, k: nat, f: Fate)
    ensures var step := Attempt(p, call, k, f);
            && (step.outcome.None? <==> Retries(p, call, k, f))
            && (forall o :: step.outcome == Some(o) <==> Decides(p, call, k, f, o))
  {
  }

  /** The step of attempt k of a run. */
  function StepAt(p: Policy, call: Call, fates: Fates, base: nat, k: nat): Step {
    Attempt(p, call, k, fates(base + k))
  }

  /** A run is its first attempt, and the run from the next one on if that attempt has no outcome. */
  lemma RunUnfold(p: Policy, call: Call, fates: Fates, base: nat, attempt: nat) returns (rest: Option<Run>)
    ensures var r, step := RunFrom(p, call, fates, base, attempt), StepAt(p, call, fates, base, attempt);
            && |r.attempts| > 0 && r.attempts[0] == step.events && (rest.None? <==> step.outcome.Some?)
            && (rest.None? ==> |r.attempts| == 1 && step.outcome == Some(r.outcome))
            && (rest.Some? ==> r.attempts == [r.attempts[0]] + rest.value.attempts && r.outcome == rest.value.outcome)
    ensures rest.Some? ==> rest.value == RunFrom(p, call, fates, base, attempt + 1) && |rest.value.attempts| > 0
  {
    if StepAt(p, call, fates, base, attempt).outcome.None? {
      rest := Some(RunFrom(p, call, fates, base, attempt + 1));
      RunNotEmpty(p, call, fates, base, attempt + 1);
    } else {
      rest := None;
    }
  }

  lemma RunNotEmpty(p: Policy, call: Call, fates: Fates, base: nat, attempt: nat)
    ensures |RunFrom(p, call, fates, base, attempt).attempts| > 0
  {
  }

  /** The attempts of a run are the given steps, and the last one is the one that has an outcome. */
  ghost predicate StepByStep(steps: nat -> Step, r: Run, first: nat)
    decreases |r.attempts|
  {
    && r.attempts != []
    && r.attempts[0] == steps(first).events
    && if |r.attempts| == 1 then steps(first).outcome == Some(r.outcome)
       else steps(first).outcome.None? && StepByStep(steps, Run(r.attempts[1..], r.outcome), first + 1)
  }

  lemma {:induction false} RunIsStepByStep(
      p: Policy, call: Call, fates: Fates, base: nat, attempt: nat, steps: nat -> Step)
    requires attempt <= p.maxRetries
    requires forall k :: steps(k) == StepAt(p, call, fates, base, k)
    ensures StepByStep(steps, RunFrom(p, call, fates, base, attempt), attempt)
    decreases p.maxRetries - attempt
  {
    var rest := RunUnfold(p, call, fates, base, attempt);
    if rest.Some? {
      RunIsStepByStep(p, call, fates, base, attempt + 1, steps);
      assert ([RunFrom(p, call, fates, base, attempt).attempts[0]] + rest.value.attempts)[1..] == rest.value.attempts;
    }
  }

  lemma {:induction false} StepOf(steps: nat -> Step, r: Run, first: nat, j: nat)
    requires StepByStep(steps, r, first) && j < |r.attempts|
    ensures r.attempts[j] == steps(first + j).events
    ensures j + 1 < |r.attempts| <==> steps(first + j).outcome.None?
    ensures j + 1 == |r.attempts| ==> steps(first + j).outcome == Some(r.outcome)
    decreases j
  {
    if j > 0 {
      StepOf(steps, Run(r.attempts[1..], r.outcome), first + 1, j - 1);
    }
  }

  /** Attempt j of a run is the specified step. */
  lemma RunAt(p: Policy, call: Call, fates: Fates, base: nat, j: nat)
    requires p.Valid() && j < |RunOf(p, call, fates, base).attempts|
    ensures var r, step := RunOf(p, call, fates, base), StepAt(p, call, fates, base, j);
            && r.attempts[j] == step.events
            && (j + 1 < |r.attempts| <==> step.outcome.None?)
            && (j + 1 == |r.attempts| ==> step.outcome == Some(r.outcome))
  {
    var steps := (k: nat) => StepAt(p, call, fates, base, k);
    RunIsStepByStep(p, call, fates, base, 0, steps);
    StepOf(steps, RunOf(p, call, fates, base), 0, j);
  }

  /**
   * A run goes on after attempt j exactly if that attempt fails retryably and its wait survives
   * the context; and its outcome is the one and only thing that its last attempt's fate decides.
   */
  lemma RunDecides(p: Policy, call: Call, fates: Fates, base: nat, j: nat, outcome: Outcome)
    requires p.Valid() && j < |RunOf(p, call, fates, base).attempts|
    ensures var r := RunOf(p, call, fates, base);
            && (j + 1 < |r.attempts| <==> Retries(p, call, j, fates(base + j)))
            && (j + 1 == |r.attempts| ==> (r.outcome == outcome <==> Decides(p, call, j, fates(base + j), outcome)))
  {
    RunAt(p, call, fates, base, j);
    AttemptDecides(p, call, j, fates(base + j));
  }

  // ---------------------------------------------------------------- on the wire

  /** The call as it must leave the client: every byte of the payload, and no header changed but Authorization. */
  ghost predicate Conveys(call: Call, credential: string, w: Wire) {
    && w.verb == call.verb && w.url == call.url
    && w.body == (if call.payload.Some? then call.payload.value else [])
    && Authorization in w.headers && w.headers[Authorization] == credential
    && (forall h :: h != Authorization ==> (h in w.headers <==> h in call.headers))
    && (forall h :: h != Authorization && h in call.headers ==> w.headers[h] == call.headers[h])
  }

  /** The delay a response asks for, none without a response. */
  function AskedFor(f: Fate): int64 {
    if Answered(f) then RetryAfter(f.net.reply.retryAfter, f.net.reply.until) else 0
  }

  /** Everything attempt k does to the outside. */
  ghost predicate Does(p: Policy, call: Call, k: nat, f: Fate, es: seq<Event>) {
    if !Reached(call, k, f) then es == []
    else
      var n := (if f.ctxAtSend then 1 else 2) + if Answered(f) then 2 else 0;
      && |es| == n + (if Retryable(p, call, k, f) then 1 else 0)
      && es[0] == Authenticated(f.credential.value)
      && (!f.ctxAtSend ==>
           es[1].Sent? && Conveys(call, f.credential.value, es[1].wire) && es[1].arrived == !f.net.Unsent?)
      && (Answered(f) ==> es[2] == Received(f.net.reply) && es[3] == Closed)
      && (Retryable(p, call, k, f) ==>
           es[n] == Slept(if AskedFor(f) > 0 then Min(AskedFor(f), p.waitMax) else Wait(p, k, f.draw)))
  }

  lemma AttemptDoes(p: Policy, call: Call, k: nat, f: Fate)
    ensures Does(p, call, k, f, Attempt(p, call, k, f).events)
  {
  }

  /** Every attempt of a run does what its fate says, and nothing else. */
  lemma RunDoes(p: Policy, call: Call, fates: Fates, base: nat, j: nat)
    requires p.Valid() && j < |RunOf(p, call, fates, base).attempts|
    ensures Does(p, call, j, fates(base + j), RunOf(p, call, fates, base).attempts[j])
  {
    RunAt(p, call, fates, base, j);
    AttemptDoes(p, call, j, fates(base + j));
  }
}
