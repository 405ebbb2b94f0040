/**
 * At-most-once execution. The server is only assumed to do what the documentation promises: a
 * key repeated with the same verb, URL and body is answered from the stored response. It may
 * decline any request without performing it.
 */
module Idempotency {
  import opened Backoff
  import opened Base
  import opened Executor
  import opened Int64

  datatype Ident = Ident(key: string, verb: string, url: string, body: seq<byte>)

  function IdentOf(w: Wire): Option<Ident> {
    if IdempotencyKey in w.headers then Some(Ident(w.headers[IdempotencyKey], w.verb, w.url, w.body)) else None
  }

  function CallIdent(call: Call): Option<Ident> {
    IdentOf(WireOf(call, ""))
  }

  /** What the server may do with a request it does not answer from its store. */
  datatype Choice = Decline(reply: Reply) | Perform(reply: Reply)

  datatype Ledger = Ledger(stored: map<Ident, Reply>, executed: seq<Wire>)

  function Serve(l: Ledger, w: Wire, c: Choice): (Ledger, Reply) {
    var id := IdentOf(w);
    if c.Decline? then (l, c.reply)
    else if id.Some? && id.value in l.stored then (l, l.stored[id.value])
    else
      (Ledger(if id.Some? then l.stored[id.value := c.reply] else l.stored, l.executed + [w]), c.reply)
  }

  /** A request that reached the server, and the answer if the client saw one. */
  datatype Arrival = Arrival(wire: Wire, seen: Option<Reply>)

  function Arrivals(es: seq<Event>): seq<Arrival> {
    if es == [] then []
    else if es[0].Sent? && es[0].arrived then
      [Arrival(es[0].wire, if |es| > 1 && es[1].Received? then Some(es[1].reply) else None)] + Arrivals(es[1..])
    else Arrivals(es[1..])
  }

  /** The ledger after the arrivals; choices fixes what the server does with the i-th request it ever gets. */
  function ServeAll(l: Ledger, arrivals: seq<Arrival>, choices: nat -> Choice, i: nat): Ledger
    decreases |arrivals|
  {
    if arrivals == [] then l
    else ServeAll(Serve(l, arrivals[0].wire, choices(i)).0, arrivals[1..], choices, i + 1)
  }

  /** The answers the client saw are the ones the server gave. */
  ghost predicate Honest(l: Ledger, arrivals: seq<Arrival>, choices: nat -> Choice, i: nat)
    decreases |arrivals|
  {
    arrivals != [] ==>
      var (l', r) := Serve(l, arrivals[0].wire, choices(i));
      && (arrivals[0].seen.Some? ==> arrivals[0].seen.value == r)
      && Honest(l', arrivals[1..], choices, i + 1)
  }

  // ---------------------------------------------------------------- the server's side

  ghost predicate AllIdent(arrivals: seq<Arrival>, id: Option<Ident>) {
    forall a :: a in arrivals ==> IdentOf(a.wire) == id
  }

  /** Requests of one identity: at most one execution, and none once the response is stored. */
  lemma {:induction false} OneIdentOneExecution(
      l: Ledger, arrivals: seq<Arrival>, choices: nat -> Choice, i: nat, id: Ident)
    requires AllIdent(arrivals, Some(id))
    ensures var l' := ServeAll(l, arrivals, choices, i);
            && l.executed <= l'.executed
            && |l'.executed| == |l.executed| + (if id in l'.stored && id !in l.stored then 1 else 0)
            && (id in l.stored ==> id in l'.stored)
    decreases |arrivals|
  {
    if arrivals != [] {
      var l1 := Serve(l, arrivals[0].wire, choices(i)).0;
      assert arrivals[0] in arrivals;
      OneIdentOneExecution(l1, arrivals[1..], choices, i + 1, id);
    }
  }

  /** An answer seen with a success status was stored, if the server never declines with one. */
  lemma {:induction false} SuccessIsStored(
      l: Ledger, arrivals: seq<Arrival>, choices: nat -> Choice, i: nat, id: Ident, k: nat)
    requires AllIdent(arrivals, Some(id)) && Honest(l, arrivals, choices, i)
    requires forall j :: choices(j).Decline? ==> !Success(choices(j).reply.status)
    requires k < |arrivals| && arrivals[k].seen.Some? && Success(arrivals[k].seen.value.status)
    ensures id in ServeAll(l, arrivals, choices, i).stored
    decreases |arrivals|
  {
    var l1 := Serve(l, arrivals[0].wire, choices(i)).0;
    assert arrivals[0] in arrivals;
    if k == 0 {
      OneIdentOneExecution(l1, arrivals[1..], choices, i + 1, id);
    } else {
      SuccessIsStored(l1, arrivals[1..], choices, i + 1, id, k - 1);
    }
  }

  // ---------------------------------------------------------------- the client's side

  predicate SentIdent(es: seq<Event>, id: Option<Ident>) {
    es != [] ==> (es[0].Sent? ==> IdentOf(es[0].wire) == id) && SentIdent(es[1..], id)
  }

  lemma {:induction false} EachSentIdent(es: seq<Event>, id: Option<Ident>)
    requires forall k :: 0 <= k < |es| && es[k].Sent? ==> IdentOf(es[k].wire) == id
    ensures SentIdent(es, id)
  {
    if es != [] {
      EachSentIdent(es[1..], id);
    }
  }

  lemma {:induction false} ArrivalsIdent(es: seq<Event>, id: Option<Ident>)
    requires SentIdent(es, id)
    ensures AllIdent(Arrivals(es), id) && |Arrivals(es)| <= CountSent(es)
  {
    if es != [] {
      ArrivalsIdent(es[1..], id);
    }
  }

  lemma {:induction false} ArrivalsAppend(a: seq<Event>, b: seq<Event>)
    requires b != [] ==> !b[0].Received?
    ensures Arrivals(a + b) == Arrivals(a) + Arrivals(b)
  {
    if a == [] {
      assert a + b == b;
    } else {
      assert (a + b)[1..] == a[1..] + b;
      ArrivalsAppend(a[1..], b);
    }
  }

  lemma {:induction false} SentIdentAppend(a: seq<Event>, b: seq<Event>, id: Option<Ident>)
    requires SentIdent(a, id) && SentIdent(b, id)
    ensures SentIdent(a + b, id)
  {
    if a == [] {
      assert a + b == b;
    } else {
      assert (a + b)[1..] == a[1..] + b;
      SentIdentAppend(a[1..], b, id);
    }
  }

  /** Every request of a run has the identity of the call: retries change only Authorization. */
  lemma {:induction false} RunSendsOneIdent(p: Policy, call: Call, first: nat, r: Run)
    requires InLanguage(p, call, first, r)
    ensures SentIdent(Flatten(r.attempts), CallIdent(call))
    decreases |r.attempts|
  {
    var es := r.attempts[0];
    AttemptSendsOneIdent(p, call, first, es, r.outcome);
    if |r.attempts| > 1 {
      RunSendsOneIdent(p, call, first + 1, Tail(p, call, first, r));
    } else {
      assert r.attempts[1..] == [];
    }
    SentIdentAppend(es, Flatten(r.attempts[1..]), CallIdent(call));
  }

  lemma AttemptSendsOneIdent(p: Policy, call: Call, k: nat, es: seq<Event>, outcome: Outcome)
    requires RetriedAttempt(p, call, k, es) || LastAttempt(p, call, k, es, outcome)
    ensures SentIdent(es, CallIdent(call))
  {
    EachSentIdent(es, CallIdent(call));
  }

  lemma CallSendsOneIdent(p: Policy, call: Call, fates: Fates, base: nat)
    requires p.Valid()
    ensures SentIdent(Flatten(RunOf(p, call, fates, base).attempts), CallIdent(call))
  {
    RunLanguage(p, call, fates, base, 0);
    RunSendsOneIdent(p, call, 0, RunOf(p, call, fates, base));
  }

  /** The events of consecutive calls on one client. */
  function Session(p: Policy, calls: seq<Call>, fates: Fates, base: nat): seq<Event> {
    if calls == [] then []
    else
      var run := RunOf(p, calls[0], fates, base);
      Flatten(run.attempts) + Session(p, calls[1..], fates, base + |run.attempts|)
  }

  lemma {:induction false} SessionSendsOneIdent(p: Policy, calls: seq<Call>, fates: Fates, base: nat, id: Option<Ident>)
    requires p.Valid() && forall k :: 0 <= k < |calls| ==> CallIdent(calls[k]) == id
    ensures SentIdent(Session(p, calls, fates, base), id)
  {
    if calls != [] {
      var run := RunOf(p, calls[0], fates, base);
      CallSendsOneIdent(p, calls[0], fates, base);
      SessionSendsOneIdent(p, calls[1..], fates, base + |run.attempts|, id);
      SentIdentAppend(Flatten(run.attempts), Session(p, calls[1..], fates, base + |run.attempts|), id);
    }
  }

  // ---------------------------------------------------------------- the theorems

  /**
   * However often a caller repeats a keyed request, and whatever the network loses, the server
   * performs it at most once in total, and not again once a response is stored.
   */
  lemma AtMostOnce(
      p: Policy, calls: seq<Call>, fates: Fates, base: nat, l: Ledger, choices: nat -> Choice, i: nat, id: Ident)
    requires p.Valid() && forall k :: 0 <= k < |calls| ==> CallIdent(calls[k]) == Some(id)
    ensures var l' := ServeAll(l, Arrivals(Session(p, calls, fates, base)), choices, i);
            && l.executed <= l'.executed
            && |l'.executed| <= |l.executed| + (if id in l.stored then 0 else 1)
  {
    SessionSendsOneIdent(p, calls, fates, base, Some(id));
    ArrivalsIdent(Session(p, calls, fates, base), Some(id));
    OneIdentOneExecution(l, Arrivals(Session(p, calls, fates, base)), choices, i, id);
  }

  /** A keyed run that reports success on a new key has been performed exactly once. */
  lemma SuccessMeansOnce(
      p: Policy, call: Call, fates: Fates, base: nat, l: Ledger, choices: nat -> Choice, i: nat, id: Ident)
    requires p.Valid() && CallIdent(call) == Some(id) && id !in l.stored
    requires forall j :: choices(j).Decline? ==> !Success(choices(j).reply.status)
    requires Honest(l, Arrivals(Flatten(RunOf(p, call, fates, base).attempts)), choices, i)
    requires RunOf(p, call, fates, base).outcome.Succeeded? || RunOf(p, call, fates, base).outcome.DecodeFailed?
    ensures |ServeAll(l, Arrivals(Flatten(RunOf(p, call, fates, base).attempts)), choices, i).executed|
      == |l.executed| + 1
  {
    var r := RunOf(p, call, fates, base);
    var es := Flatten(r.attempts);
    RunLanguage(p, call, fates, base, 0);
    RunSendsOneIdent(p, call, 0, r);
    ArrivalsIdent(es, Some(id));
    LastAnswerSeen(p, call, r);
    SuccessIsStored(l, Arrivals(es), choices, i, id, |Arrivals(es)| - 1);
    OneIdentOneExecution(l, Arrivals(es), choices, i, id);
  }

  lemma LastAnswerSeen(p: Policy, call: Call, r: Run)
    requires InLanguage(p, call, 0, r) && (r.outcome.Succeeded? || r.outcome.DecodeFailed?)
    ensures var arrivals := Arrivals(Flatten(r.attempts));
            |arrivals| > 0 && arrivals[|arrivals| - 1].seen == Some(r.outcome.reply) && Success(r.outcome.reply.status)
  {
    var n := |r.attempts|;
    var last := r.attempts[n - 1];
    assert r.attempts == r.attempts[..n - 1] + [last];
    FlattenSnoc(r.attempts[..n - 1], last);
    ArrivalsAppend(Flatten(r.attempts[..n - 1]), last);
    assert last[2] == last[2..][0] && last[3] == last[2..][1];
    assert last == [last[0], last[1], last[2], last[3]];
    assert Arrivals(last) == [Arrival(last[1].wire, Some(last[2].reply))] by {
      assert last[1..][1..] == [last[2], last[3]];
      assert Arrivals(last[1..][1..]) == Arrivals([last[3]]) == [];
    }
  }

  lemma {:induction false} ExecutionsBoundedByArrivals(
      l: Ledger, arrivals: seq<Arrival>, choices: nat -> Choice, i: nat)
    ensures |ServeAll(l, arrivals, choices, i).executed| <= |l.executed| + |arrivals|
    decreases |arrivals|
  {
    if arrivals != [] {
      ExecutionsBoundedByArrivals(Serve(l, arrivals[0].wire, choices(i)).0, arrivals[1..], choices, i + 1);
    }
  }

  /** Without a key, one call may be performed up to maxRetries + 1 times. */
  lemma UnkeyedBound(p: Policy, call: Call, fates: Fates, base: nat, l: Ledger, choices: nat -> Choice, i: nat)
    requires p.Valid()
    ensures |ServeAll(l, Arrivals(Flatten(RunOf(p, call, fates, base).attempts)), choices, i).executed|
         <= |l.executed| + p.maxRetries + 1
  {
    var es := Flatten(RunOf(p, call, fates, base).attempts);
    CallSendsOneIdent(p, call, fates, base);
    ArrivalsIdent(es, CallIdent(call));
    RunAccounting(p, call, fates, base);
    ExecutionsBoundedByArrivals(l, Arrivals(es), choices, i);
  }

  /** Every answer is lost, and nothing else goes wrong. */
  ghost predicate AnswersLost(fates: Fates, token: string) {
    forall j :: fates(j) == Fate(true, Some(token), false, ReplyLost, false, 0, false, true)
  }

  function Copies(a: Arrival, n: nat): (r: seq<Arrival>)
    ensures |r| == n
  {
    if n == 0 then [] else [a] + Copies(a, n - 1)
  }

  /** The bound is attained when every answer is lost and the server performs every request. */
  lemma UnkeyedBoundAttained(
      p: Policy, call: Call, fates: Fates, base: nat, l: Ledger, choices: nat -> Choice, i: nat, token: string)
    requires p.Valid() && CallIdent(call) == None
    requires AnswersLost(fates, token) && forall j :: choices(j).Perform?
    ensures |ServeAll(l, Arrivals(Flatten(RunOf(p, call, fates, base).attempts)), choices, i).executed|
         == |l.executed| + p.maxRetries + 1
  {
    LostArrivals(p, call, fates, base, 0, token);
    PerformedEachTime(l, Arrival(WireOf(call, token), None), p.maxRetries + 1, choices, i);
  }

  lemma {:induction false} LostArrivals(p: Policy, call: Call, fates: Fates, base: nat, attempt: nat, token: string)
    requires p.Valid() && attempt <= p.maxRetries && AnswersLost(fates, token)
    ensures Arrivals(Flatten(RunFrom(p, call, fates, base, attempt).attempts))
         == Copies(Arrival(WireOf(call, token), None), p.maxRetries + 1 - attempt)
    decreases p.maxRetries - attempt
  {
    LostAttempt(p, call, fates, base, attempt, token);
    if attempt < p.maxRetries {
      LostArrivals(p, call, fates, base, attempt + 1, token);
    }
  }

  lemma {:induction false} PerformedEachTime(l: Ledger, a: Arrival, n: nat, choices: nat -> Choice, i: nat)
    requires IdentOf(a.wire) == None && forall j :: choices(j).Perform?
    ensures |ServeAll(l, Copies(a, n), choices, i).executed| == |l.executed| + n
    decreases n
  {
    if n > 0 {
      assert Copies(a, n)[1..] == Copies(a, n - 1);
      PerformedEachTime(Serve(l, a.wire, choices(i)).0, a, n - 1, choices, i + 1);
    }
  }

  lemma LostAttempt(p: Policy, call: Call, fates: Fates, base: nat, attempt: nat, token: string)
    requires p.Valid() && attempt <= p.maxRetries && AnswersLost(fates, token)
    ensures Arrivals(Flatten(RunFrom(p, call, fates, base, attempt).attempts))
         == [Arrival(WireOf(call, token), None)]
          + if attempt == p.maxRetries then []
            else Arrivals(Flatten(RunFrom(p, call, fates, base, attempt + 1).attempts))
  {
    var step := Attempt(p, call, attempt, fates(base + attempt));
    var w := WireOf(call, token);
    if attempt == p.maxRetries {
      assert step.events == [Authenticated(token), Sent(w, true)];
      LostAnswer(token, w, []);
      assert Flatten([step.events]) == [Authenticated(token), Sent(w, true)] + [];
    } else {
      var d := RetryWait(p, attempt, 0, 0);
      var rest := Flatten(RunFrom(p, call, fates, base, attempt + 1).attempts);
      assert step.events == [Authenticated(token), Sent(w, true)] + [Slept(d)];
      assert Flatten(RunFrom(p, call, fates, base, attempt).attempts) == step.events + rest;
      ConcatAssociative([Authenticated(token), Sent(w, true)], [Slept(d)], rest);
      LostAnswer(token, w, [Slept(d)] + rest);
      SleepSkipped(d, rest);
    }
  }

  lemma SleepSkipped(d: int64, rest: seq<Event>)
    ensures Arrivals([Slept(d)] + rest) == Arrivals(rest)
  {
    assert ([Slept(d)] + rest)[1..] == rest;
  }

  lemma LostAnswer(token: string, w: Wire, tail: seq<Event>)
    requires tail != [] ==> !tail[0].Received?
    ensures Arrivals([Authenticated(token), Sent(w, true)] + tail) == [Arrival(w, None)] + Arrivals(tail)
  {
    var es := [Authenticated(token), Sent(w, true)] + tail;
    assert es[1..] == [Sent(w, true)] + tail && es[1..][1..] == tail;
  }
}
