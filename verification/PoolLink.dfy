/**
 * The pool-link handshake: a poll loop over the retrying executor, against a code that hands
 * out its instance token once.
 */
module PoolLink {
  import opened Backoff
  import opened Base
  import C = Client
  import opened Executor
  import I = Idempotency
  import opened Int64

  const POLL_FLOOR: int64 := SECOND

  /** The wait between polls for the interval quoted by a grant: in seconds, and not below the floor. */
  function PollWait(interval: int64): int64 {
    if Seconds(interval) < POLL_FLOOR then POLL_FLOOR else Seconds(interval)
  }

  /** Whether a decoded poll result has status "approved", and so carries the token. */
  type Decoder = Reply -> bool

  datatype Outcome = Approved(reply: Reply) | PollFailed(poll: Executor.Outcome) | GaveUp

  /** The context during the waits between polls. */
  type Waits = nat -> bool

  // ---------------------------------------------------------------- the loop

  /** The events of finished polls, each followed by its wait. */
  function PollEvents(polls: seq<Run>, d: int64): seq<Event> {
    if polls == [] then []
    else PollEvents(polls[..|polls| - 1], d) + (Flatten(polls[|polls| - 1].attempts) + [Slept(d)])
  }

  /** The number of fates the first polls use up. */
  function Used(polls: seq<Run>): nat {
    if polls == [] then 0 else Used(polls[..|polls| - 1]) + |polls[|polls| - 1].attempts|
  }

  /** A poll after which the loop waits and polls again. */
  predicate StillPending(poll: Run, approved: Decoder) {
    poll.outcome.Succeeded? && !approved(poll.outcome.reply)
  }

  /** Consecutive polls by one client, each a run of the executor, all of which left the code pending. */
  ghost predicate Pendings(
      polls: seq<Run>, p: Policy, call: Call, fates: Fates, base: nat, approved: Decoder, waits: Waits)
  {
    polls == [] ||
    var n := |polls| - 1;
    && Pendings(polls[..n], p, call, fates, base, approved, waits)
    && polls[n] == RunOf(p, call, fates, base + Used(polls[..n]))
    && StillPending(polls[n], approved) && waits(n)
  }

  /** What the last poll makes of the whole wait. */
  ghost predicate Ends(poll: Run, approved: Decoder, outcome: Outcome) {
    match outcome
    case Approved(r) => poll.outcome == Succeeded(r) && approved(r)
    case PollFailed(o) => poll.outcome == o && !o.Succeeded?
    case GaveUp => StillPending(poll, approved)
  }

  /** The events of a whole wait; the last poll is followed by a wait only if the context ended it. */
  function WaitEvents(polls: seq<Run>, d: int64, outcome: Outcome): seq<Event>
    requires |polls| > 0
  {
    if outcome.GaveUp? then PollEvents(polls, d)
    else PollEvents(polls[..|polls| - 1], d) + Flatten(polls[|polls| - 1].attempts)
  }

  /** A whole wait: polls that all leave the code pending but the last, which decides the outcome. */
  ghost predicate Waited(
      p: Policy, call: Call, fates: Fates, base: nat, approved: Decoder, waits: Waits, polls: seq<Run>,
      outcome: Outcome)
  {
    && |polls| > 0 && Pendings(polls[..|polls| - 1], p, call, fates, base, approved, waits)
    && polls[|polls| - 1] == RunOf(p, call, fates, base + Used(polls[..|polls| - 1]))
    && Ends(polls[|polls| - 1], approved, outcome)
    && (outcome.GaveUp? ==> !waits(|polls| - 1))
  }

  /** poolLinkWait: sleeps for the interval, or the floor if that is longer. */
  method PoolLinkWait(env: C.Environment, interval: int64, alive: bool) returns (ok: bool)
    modifies env`events
    ensures ok == alive
    ensures env.events == old(env.events) + [Slept(if interval < POLL_FLOOR then POLL_FLOOR else interval)]
  {
    var wait := interval;
    if wait < POLL_FLOOR {
      wait := POLL_FLOOR;
    }
    env.events := env.events + [Slept(wait)];
    return alive;
  }

  /**
   * WaitForApproval: polls until approved, an error, or a done context; horizon only says that
   * the context is done at some wait.
   */
  method WaitForApproval(
      client: C.Client, env: C.Environment, call: Call, interval: int64, approved: Decoder, waits: Waits,
      ghost horizon: nat)
    returns (outcome: Outcome, ghost polls: seq<Run>)
    requires client.Valid() && !waits(horizon)
    modifies env
    ensures Waited(client.AsPolicy(), call, env.fates, old(env.cursor), approved, waits, polls, outcome)
    ensures env.events == old(env.events) + WaitEvents(polls, PollWait(interval), outcome)
  {
    ghost var w := Wait(client.AsPolicy(), call, env.fates, env.cursor, approved, waits, PollWait(interval),
      env.events);
    polls := [];
    var n := 0;
    while true
      invariant n == |polls| <= horizon
      invariant w.Going(polls, env.cursor, env.events)
      decreases horizon - n
    {
      ghost var before, cursor, es := polls, env.cursor, env.events;
      var result; ghost var poll;
      result, poll := PollOnce(client, env, call);
      polls := before + [poll];
      if !result.Succeeded? {
        w.Ended(before, poll, cursor, es, PollFailed(result));
        return PollFailed(result), polls;
      }
      if approved(result.reply) {
        w.Ended(before, poll, cursor, es, Approved(result.reply));
        return Approved(result.reply), polls;
      }
      var ok := PoolLinkWait(env, Seconds(interval), waits(n));
      if !ok {
        w.Ended(before, poll, cursor, es, GaveUp);
        return GaveUp, polls;
      }
      w.GoesOn(before, poll, cursor, es);
      n := n + 1;
    }
  }

  /** What one call of WaitForApproval fixes. */
  datatype Wait = Wait(
      p: Policy, call: Call, fates: Fates, base: nat, approved: Decoder, waits: Waits, d: int64,
      before: seq<Event>)
  {
    ghost predicate Going(polls: seq<Run>, cursor: nat, events: seq<Event>) {
      && Pendings(polls, p, call, fates, base, approved, waits)
      && cursor == base + Used(polls)
      && events == before + PollEvents(polls, d)
    }

    ghost predicate Over(polls: seq<Run>, outcome: Outcome, events: seq<Event>) {
      && Waited(p, call, fates, base, approved, waits, polls, outcome)
      && events == before + WaitEvents(polls, d, outcome)
    }

    /** One more poll, and a wait if the poll asks for one, ends the wait. */
    lemma Ended(polls: seq<Run>, poll: Run, cursor: nat, es: seq<Event>, outcome: Outcome)
      requires Going(polls, cursor, es) && poll == RunOf(p, call, fates, cursor)
      requires Ends(poll, approved, outcome) && (outcome.GaveUp? ==> !waits(|polls|))
      ensures var after := es + Flatten(poll.attempts);
              Over(polls + [poll], outcome, if outcome.GaveUp? then after + [Slept(d)] else after)
    {
      OneMorePoll(polls, poll, before, d);
    }

    /** One more poll and a wait, and the code may still be settled. */
    lemma GoesOn(polls: seq<Run>, poll: Run, cursor: nat, es: seq<Event>)
      requires Going(polls, cursor, es) && poll == RunOf(p, call, fates, cursor)
      requires StillPending(poll, approved) && waits(|polls|)
      ensures Going(polls + [poll], cursor + |poll.attempts|, es + Flatten(poll.attempts) + [Slept(d)])
    {
      OneMorePoll(polls, poll, before, d);
    }
  }

  lemma OneMorePoll(polls: seq<Run>, poll: Run, before: seq<Event>, d: int64)
    ensures var all := polls + [poll];
            var es := before + PollEvents(polls, d) + Flatten(poll.attempts);
            && all[..|all| - 1] == polls && all[|all| - 1] == poll
            && Used(all) == Used(polls) + |poll.attempts|
            && before + PollEvents(all, d) == es + [Slept(d)]
            && before + (PollEvents(polls, d) + Flatten(poll.attempts)) == es
  {
    var all := polls + [poll];
    assert all[..|all| - 1] == polls;
    var es := Flatten(poll.attempts);
    ConcatAssociative(before, PollEvents(polls, d), es);
    ConcatAssociative(before + PollEvents(polls, d), es, [Slept(d)]);
    ConcatAssociative(before, PollEvents(polls, d), es + [Slept(d)]);
  }

  /** Poll: one run of the executor on a new request. */
  method PollOnce(client: C.Client, env: C.Environment, call: Call) returns (result: Executor.Outcome, ghost poll: Run)
    requires client.Valid()
    modifies env
    ensures poll == RunOf(client.AsPolicy(), call, env.fates, old(env.cursor)) && result == poll.outcome
    ensures env.events == old(env.events) + Flatten(poll.attempts)
    ensures env.cursor == old(env.cursor) + |poll.attempts|
  {
    var req := new C.Request(call.verb, call.url, call.headers, call.payload);
    ghost var attempts;
    result, attempts := client.Do(env, req);
    poll := Run(attempts, result);
  }

  // ---------------------------------------------------------------- the server

  datatype Code = Pending | Accepted | Claimed | Refused | Gone

  /** What members and the clock may do to a code between two requests. */
  predicate Moves(c: Code, c': Code) {
    c == c' || c' == Gone || (c == Pending && (c' == Accepted || c' == Refused))
  }

  /**
   * Answering a poll: only a pending code says pending, an accepted one hands out its token and
   * becomes claimed, and everything else is answered with an error and changes nothing.
   */
  ghost predicate Answers(c: Code, c': Code, r: Reply, approved: Decoder) {
    exists m :: Moves(c, m) && AnswersNow(m, c', r, approved)
  }

  predicate AnswersNow(m: Code, c': Code, r: Reply, approved: Decoder) {
    if !Success(r.status) then c' == m
    else if approved(r) then m == Accepted && c' == Claimed
    else m == Pending && c' == m
  }

  /** A life of the code: its states and answers, request by request, as far as the client saw them. */
  ghost predicate Life(arrivals: seq<I.Arrival>, states: seq<Code>, answers: seq<Reply>, approved: Decoder) {
    && |states| == |arrivals| + 1 && |answers| == |arrivals|
    && (forall k :: 0 <= k < |arrivals| ==> Answers(states[k], states[k + 1], answers[k], approved))
    && (forall k :: 0 <= k < |arrivals| && arrivals[k].seen.Some? ==> arrivals[k].seen.value == answers[k])
  }

  predicate HandsOut(r: Reply, approved: Decoder) {
    Success(r.status) && approved(r)
  }

  lemma {:induction false} ClaimedOrGoneStays(
      arrivals: seq<I.Arrival>, states: seq<Code>, answers: seq<Reply>, approved: Decoder, i: nat, j: nat)
    requires Life(arrivals, states, answers, approved) && i <= j < |states|
    requires states[i] == Claimed || states[i] == Gone
    ensures states[j] == Claimed || states[j] == Gone
    decreases j - i
  {
    if i < j {
      assert Answers(states[i], states[i + 1], answers[i], approved);
      ClaimedOrGoneStays(arrivals, states, answers, approved, i + 1, j);
    }
  }

  /** However many polls reach it, from however many loops, a code hands out its token at most once. */
  lemma TokenAtMostOnce(
      arrivals: seq<I.Arrival>, states: seq<Code>, answers: seq<Reply>, approved: Decoder, i: nat, j: nat)
    requires Life(arrivals, states, answers, approved) && i < |answers| && j < |answers|
    requires HandsOut(answers[i], approved) && HandsOut(answers[j], approved)
    ensures i == j
  {
    assert Answers(states[i], states[i + 1], answers[i], approved);
    assert Answers(states[j], states[j + 1], answers[j], approved);
    if i < j {
      ClaimedOrGoneStays(arrivals, states, answers, approved, i + 1, j);
    }
    if j < i {
      ClaimedOrGoneStays(arrivals, states, answers, approved, j + 1, i);
    }
  }
}
