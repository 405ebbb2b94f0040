/**
 * What a pool-link wait gives its caller: the token exactly when the client saw it handed out,
 * never a second poll after that, and never the token under a reused Idempotency-Key.
 */
module PoolLinkProofs {
  import opened Backoff
  import opened Base
  import opened Executor
  import opened Idempotency
  import opened Int64
  import opened PoolLink

  /** The client saw this arrival answered with a success. */
  predicate SeenSuccess(a: Arrival) {
    a.seen.Some? && Success(a.seen.value.status)
  }

  /** A success is seen in the last arrival or nowhere, and then it is what the run reports. */
  predicate SuccessEnds(arrivals: seq<Arrival>, outcome: Executor.Outcome) {
    var n := |arrivals|;
    && (forall k :: 0 <= k < n - 1 ==> !SeenSuccess(arrivals[k]))
    && (n > 0 && SeenSuccess(arrivals[n - 1]) ==>
          (outcome.Succeeded? || outcome.DecodeFailed?) && outcome.reply == arrivals[n - 1].seen.value)
    && (outcome.Succeeded? || outcome.DecodeFailed? ==> n > 0 && SeenSuccess(arrivals[n - 1]))
  }

  /** The arrivals of one attempt. */
  lemma AttemptArrivals(p: Policy, call: Call, k: nat, es: seq<Event>, outcome: Executor.Outcome)
    requires LastAttempt(p, call, k, es, outcome)
    ensures SuccessEnds(Arrivals(es), outcome)
  {
    PeelArrivals(es);
    if |es| == 4 {
      assert es[2] == es[2..][0] && es[3] == es[2..][1];
      assert Arrivals(es) == [Arrival(es[1].wire, Some(es[2].reply))];
    } else if |es| == 5 || |es| == 3 {
      RetriedArrivals(p, call, k, es);
    } else {
      assert forall a :: a in Arrivals(es) ==> a.seen == None;
    }
  }

  lemma RetriedArrivals(p: Policy, call: Call, k: nat, es: seq<Event>)
    requires RetriedAttempt(p, call, k, es)
    ensures forall a :: a in Arrivals(es) ==> !SeenSuccess(a)
  {
    PeelArrivals(es);
  }

  /** The arrival that event i is, if it is one. */
  function ArrivalAt(es: seq<Event>, i: nat): seq<Arrival>
    requires i < |es|
  {
    if !es[i].Sent? || !es[i].arrived then []
    else [Arrival(es[i].wire, if i + 1 < |es| && es[i + 1].Received? then Some(es[i + 1].reply) else None)]
  }

  lemma PeelArrivals(es: seq<Event>)
    ensures es[0..] == es && Arrivals(es[|es|..]) == []
    ensures forall i {:trigger es[i]} :: 0 <= i < |es| ==>
      Arrivals(es[i..]) == ArrivalAt(es, i) + Arrivals(es[i + 1..])
  {
    assert es[|es|..] == [];
    forall i | 0 <= i < |es|
      ensures Arrivals(es[i..]) == ArrivalAt(es, i) + Arrivals(es[i + 1..])
    {
      PeelArrival(es, i);
    }
  }

  lemma PeelArrival(es: seq<Event>, i: nat)
    requires i < |es|
    ensures Arrivals(es[i..]) == ArrivalAt(es, i) + Arrivals(es[i + 1..])
  {
    assert es[i..][1..] == es[i + 1..] && es[i..][0] == es[i];
    assert i + 1 < |es| ==> es[i..][1] == es[i + 1];
  }

  /** No run starts by receiving, so the arrivals of runs put together are put together. */
  lemma StartsFresh(p: Policy, call: Call, first: nat, r: Run)
    requires InLanguage(p, call, first, r)
    ensures var es := Flatten(r.attempts); es != [] ==> !es[0].Received?
    ensures |r.attempts| > 1 ==> Flatten(r.attempts) == r.attempts[0] + Flatten(r.attempts[1..])
  {
    if |r.attempts| == 1 {
      assert r.attempts[1..] == [];
    }
  }

  /** One run of the executor: it ends with the first success it sees. */
  lemma {:induction false} RunArrivals(p: Policy, call: Call, first: nat, r: Run)
    requires InLanguage(p, call, first, r)
    ensures SuccessEnds(Arrivals(Flatten(r.attempts)), r.outcome)
    decreases |r.attempts|
  {
    var es := r.attempts[0];
    StartsFresh(p, call, first, r);
    if |r.attempts| == 1 {
      AttemptArrivals(p, call, first, es, r.outcome);
      assert r.attempts[1..] == [];
      assert Flatten(r.attempts) == es;
    } else {
      var rest := Tail(p, call, first, r);
      RetriedArrivals(p, call, first, es);
      StartsFresh(p, call, first + 1, rest);
      ArrivalsAppend(es, Flatten(rest.attempts));
      RunArrivals(p, call, first + 1, rest);
      QuietBefore(Arrivals(es), Arrivals(Flatten(rest.attempts)), r.outcome);
    }
  }

  lemma QuietBefore(a: seq<Arrival>, b: seq<Arrival>, outcome: Executor.Outcome)
    requires forall x :: x in a ==> !SeenSuccess(x)
    requires SuccessEnds(b, outcome)
    ensures SuccessEnds(a + b, outcome)
  {
  }

  // ---------------------------------------------------------------- a whole wait

  /** The client saw the token handed out. */
  predicate SeenToken(a: Arrival, approved: Decoder) {
    SeenSuccess(a) && approved(a.seen.value)
  }

  /** A call of the executor: its arrivals end with the first success, which it reports. */
  lemma PollArrivals(p: Policy, call: Call, fates: Fates, base: nat, r: Run)
    requires p.Valid() && r == RunOf(p, call, fates, base)
    ensures SuccessEnds(Arrivals(Flatten(r.attempts)), r.outcome)
    ensures Flatten(r.attempts) != [] ==> !Flatten(r.attempts)[0].Received?
  {
    RunLanguage(p, call, fates, base, 0);
    StartsFresh(p, call, 0, r);
    RunArrivals(p, call, 0, r);
  }

  /** Each poll that left the code pending saw a success, and none of them saw the token. */
  lemma {:induction false} PendingArrivals(
      polls: seq<Run>, p: Policy, call: Call, fates: Fates, base: nat, approved: Decoder, waits: Waits, d: int64)
    requires p.Valid() && Pendings(polls, p, call, fates, base, approved, waits)
    ensures var arrivals := Arrivals(PollEvents(polls, d));
            && (forall a :: a in arrivals ==> !SeenToken(a, approved))
            && (polls != [] ==> exists a :: a in arrivals && SeenSuccess(a))
    decreases |polls|
  {
    if polls != [] {
      var n := |polls| - 1;
      PendingArrivals(polls[..n], p, call, fates, base, approved, waits, d);
      PollArrivals(p, call, fates, base + Used(polls[..n]), polls[n]);
      LastArrivals(polls, d);
      StillQuiet(Arrivals(PollEvents(polls[..n], d)), Arrivals(Flatten(polls[n].attempts)), polls[n], approved);
    }
  }

  lemma StillQuiet(a: seq<Arrival>, b: seq<Arrival>, last: Run, approved: Decoder)
    requires forall x :: x in a ==> !SeenToken(x, approved)
    requires SuccessEnds(b, last.outcome) && StillPending(last, approved)
    ensures forall x :: x in a + b ==> !SeenToken(x, approved)
    ensures exists x :: x in a + b && SeenSuccess(x)
  {
    assert SeenSuccess(b[|b| - 1]) && b[|b| - 1] in a + b;
  }

  /** The last poll's arrivals come last, whether or not a wait follows it. */
  lemma LastArrivals(polls: seq<Run>, d: int64)
    requires polls != [] && var es := Flatten(polls[|polls| - 1].attempts); es != [] ==> !es[0].Received?
    ensures var before := PollEvents(polls[..|polls| - 1], d);
            var es := Flatten(polls[|polls| - 1].attempts);
            && Arrivals(PollEvents(polls, d)) == Arrivals(before) + Arrivals(es)
            && Arrivals(before + es) == Arrivals(before) + Arrivals(es)
  {
    var before := PollEvents(polls[..|polls| - 1], d);
    var es := Flatten(polls[|polls| - 1].attempts);
    SleepAfter(es, d);
    ArrivalsAppend(before, es);
    ArrivalsAppend(before, es + [Slept(d)]);
  }

  lemma SleepAfter(es: seq<Event>, d: int64)
    requires es != [] ==> !es[0].Received?
    ensures Arrivals(es + [Slept(d)]) == Arrivals(es)
    ensures !(es + [Slept(d)])[0].Received?
  {
    ArrivalsAppend(es, [Slept(d)]);
    assert Arrivals([Slept(d)]) == [];
  }

  /** The arrivals of a wait are those of the polls that left the code pending and of the last poll. */
  lemma WaitArrivals(
      p: Policy, call: Call, fates: Fates, base: nat, approved: Decoder, waits: Waits, polls: seq<Run>,
      outcome: PoolLink.Outcome, d: int64)
    requires p.Valid() && Waited(p, call, fates, base, approved, waits, polls, outcome)
    ensures var n := |polls| - 1;
            && Arrivals(WaitEvents(polls, d, outcome)) == Arrivals(PollEvents(polls[..n], d))
              + Arrivals(Flatten(polls[n].attempts))
            && SuccessEnds(Arrivals(Flatten(polls[n].attempts)), polls[n].outcome)
  {
    var n := |polls| - 1;
    PollArrivals(p, call, fates, base + Used(polls[..n]), polls[n]);
    LastArrivals(polls, d);
  }

  /** The wait ended with the token in r, or with r failing to decode. */
  predicate Collected(outcome: PoolLink.Outcome, r: Reply) {
    outcome == Approved(r) || outcome == PollFailed(DecodeFailed(r))
  }

  /**
   * The wait returns a token only if it saw it handed out by the very last request that reached
   * the server; and whenever it sees one, it stops there and returns it or fails to decode it.
   */
  lemma TokenIffSeen(
      p: Policy, call: Call, fates: Fates, base: nat, approved: Decoder, waits: Waits, polls: seq<Run>,
      outcome: PoolLink.Outcome, d: int64)
    requires p.Valid() && Waited(p, call, fates, base, approved, waits, polls, outcome)
    ensures var arrivals := Arrivals(WaitEvents(polls, d, outcome));
            var n := |arrivals| - 1;
            && (forall k :: 0 <= k <= n && SeenToken(arrivals[k], approved) ==>
              k == n && Collected(outcome, arrivals[n].seen.value))
            && (forall r :: Collected(outcome, r) && approved(r) ==>
              n >= 0 && SeenToken(arrivals[n], approved) && arrivals[n].seen.value == r)
            && (outcome.Approved? ==> approved(outcome.reply))
  {
    var before := polls[..|polls| - 1];
    var a, b := Arrivals(PollEvents(before, d)), Arrivals(Flatten(polls[|polls| - 1].attempts));
    WaitArrivals(p, call, fates, base, approved, waits, polls, outcome, d);
    PendingArrivals(before, p, call, fates, base, approved, waits, d);
    TokenInLastPoll(a, b, polls[|polls| - 1], approved, outcome);
  }

  lemma TokenInLastPoll(a: seq<Arrival>, b: seq<Arrival>, last: Run, approved: Decoder, outcome: PoolLink.Outcome)
    requires forall x :: x in a ==> !SeenToken(x, approved)
    requires SuccessEnds(b, last.outcome) && Ends(last, approved, outcome)
    ensures var n := |a + b| - 1;
            && (forall k :: 0 <= k <= n && SeenToken((a + b)[k], approved) ==>
              k == n && Collected(outcome, (a + b)[n].seen.value))
            && (forall r :: Collected(outcome, r) && approved(r) ==>
              n >= 0 && SeenToken((a + b)[n], approved) && (a + b)[n].seen.value == r)
  {
    assert forall k :: 0 <= k < |a| ==> a[k] in a;
  }

  /**
   * Against a code that hands its token out once: the wait collects it exactly when the answer
   * that carried it was not lost, and a token that was lost is never returned.
   */
  lemma TokenCollectedIff(
      p: Policy, call: Call, fates: Fates, base: nat, approved: Decoder, waits: Waits, polls: seq<Run>,
      outcome: PoolLink.Outcome, d: int64, states: seq<Code>, answers: seq<Reply>, k: nat)
    requires p.Valid() && Waited(p, call, fates, base, approved, waits, polls, outcome)
    requires Life(Arrivals(WaitEvents(polls, d, outcome)), states, answers, approved)
    requires k < |answers| && HandsOut(answers[k], approved)
    ensures var seen := Arrivals(WaitEvents(polls, d, outcome))[k].seen;
            && (seen.Some? <==> Collected(outcome, answers[k]))
            && (seen.None? ==> !outcome.Approved?)
  {
    var arrivals := Arrivals(WaitEvents(polls, d, outcome));
    var n := |arrivals| - 1;
    TokenIffSeen(p, call, fates, base, approved, waits, polls, outcome, d);
    assert arrivals[k].seen.Some? ==> SeenToken(arrivals[k], approved);
    if SeenToken(arrivals[n], approved) {
      TokenAtMostOnce(arrivals, states, answers, approved, k, n);
    }
  }

  /**
   * A wait goes on exactly while its polls succeed without an approval and the context lives, and
   * its outcome is what the last poll and the context make of it.
   */
  lemma {:induction false} PendingPolls(
      polls: seq<Run>, p: Policy, call: Call, fates: Fates, base: nat, approved: Decoder, waits: Waits, k: nat)
    requires Pendings(polls, p, call, fates, base, approved, waits) && k < |polls|
    ensures polls[k].outcome.Succeeded? && !approved(polls[k].outcome.reply) && waits(k)
    decreases |polls|
  {
    if k < |polls| - 1 {
      PendingPolls(polls[..|polls| - 1], p, call, fates, base, approved, waits, k);
    }
  }

  lemma OutcomeOfWait(
      p: Policy, call: Call, fates: Fates, base: nat, approved: Decoder, waits: Waits, polls: seq<Run>,
      outcome: PoolLink.Outcome, k: nat)
    requires Waited(p, call, fates, base, approved, waits, polls, outcome)
    ensures k < |polls| - 1 ==> polls[k].outcome.Succeeded? && !approved(polls[k].outcome.reply) && waits(k)
    ensures var last := polls[|polls| - 1].outcome;
            && (forall r :: outcome == Approved(r) <==> last == Succeeded(r) && approved(r))
            && (forall o :: outcome == PollFailed(o) <==> last == o && !o.Succeeded?)
            && (outcome == GaveUp <==> last.Succeeded? && !approved(last.reply))
            && (outcome == GaveUp ==> !waits(|polls| - 1))
  {
    if k < |polls| - 1 {
      PendingPolls(polls[..|polls| - 1], p, call, fates, base, approved, waits, k);
    }
  }

  // ---------------------------------------------------------------- a reused key

  /** From one store, all successes seen for one identity are the same answer. */
  lemma {:induction false} OneAnswer(l: Ledger, arrivals: seq<Arrival>, choices: nat -> Choice, i: nat, id: Ident)
    requires AllIdent(arrivals, Some(id)) && Honest(l, arrivals, choices, i)
    requires forall j :: choices(j).Decline? ==> !Success(choices(j).reply.status)
    ensures forall a, b :: a in arrivals && b in arrivals && SeenSuccess(a) && SeenSuccess(b) ==> a.seen == b.seen
    ensures id in l.stored ==> forall a :: a in arrivals && SeenSuccess(a) ==> a.seen.value == l.stored[id]
    decreases |arrivals|
  {
    if arrivals != [] {
      assert arrivals[0] in arrivals;
      OneAnswer(Serve(l, arrivals[0].wire, choices(i)).0, arrivals[1..], choices, i + 1, id);
      assert forall a :: a in arrivals ==> a == arrivals[0] || a in arrivals[1..];
    }
  }

  lemma {:induction false} PollsSendOneIdent(
      polls: seq<Run>, p: Policy, call: Call, fates: Fates, base: nat, approved: Decoder, waits: Waits, d: int64)
    requires p.Valid() && Pendings(polls, p, call, fates, base, approved, waits)
    ensures SentIdent(PollEvents(polls, d), CallIdent(call))
    decreases |polls|
  {
    if polls != [] {
      var n := |polls| - 1;
      PollsSendOneIdent(polls[..n], p, call, fates, base, approved, waits, d);
      PollSendsOneIdent(p, call, fates, base + Used(polls[..n]), polls[n]);
      SentIdentAppend(Flatten(polls[n].attempts), [Slept(d)], CallIdent(call));
      SentIdentAppend(PollEvents(polls[..n], d), Flatten(polls[n].attempts) + [Slept(d)], CallIdent(call));
    }
  }

  /**
   * A wait whose polls all carry one Idempotency-Key never collects the token unless its first
   * poll does: the server answers every later poll with the stored pending answer.
   */
  lemma KeyedWaitStuck(
      p: Policy, call: Call, fates: Fates, base: nat, approved: Decoder, waits: Waits, polls: seq<Run>,
      outcome: PoolLink.Outcome, d: int64, l: Ledger, choices: nat -> Choice, i: nat, id: Ident)
    requires p.Valid() && Waited(p, call, fates, base, approved, waits, polls, outcome)
    requires CallIdent(call) == Some(id) && |polls| > 1
    requires Honest(l, Arrivals(WaitEvents(polls, d, outcome)), choices, i)
    requires forall j :: choices(j).Decline? ==> !Success(choices(j).reply.status)
    ensures !outcome.Approved?
  {
    var n := |polls| - 1;
    var arrivals := Arrivals(WaitEvents(polls, d, outcome));
    WaitArrivals(p, call, fates, base, approved, waits, polls, outcome, d);
    WaitSendsOneIdent(p, call, fates, base, approved, waits, polls, outcome, d);
    OneAnswer(l, arrivals, choices, i, id);
    PendingArrivals(polls[..n], p, call, fates, base, approved, waits, d);
    TokenIffSeen(p, call, fates, base, approved, waits, polls, outcome, d);
    var a :| a in Arrivals(PollEvents(polls[..n], d)) && SeenSuccess(a);
    assert a in arrivals && !SeenToken(a, approved);
    var last := arrivals[|arrivals| - 1];
    assert last in arrivals;
  }

  lemma WaitSendsOneIdent(
      p: Policy, call: Call, fates: Fates, base: nat, approved: Decoder, waits: Waits, polls: seq<Run>,
      outcome: PoolLink.Outcome, d: int64)
    requires p.Valid() && Waited(p, call, fates, base, approved, waits, polls, outcome)
    ensures AllIdent(Arrivals(WaitEvents(polls, d, outcome)), CallIdent(call))
  {
    var n := |polls| - 1;
    var before, last := PollEvents(polls[..n], d), Flatten(polls[n].attempts);
    PollSendsOneIdent(p, call, fates, base + Used(polls[..n]), polls[n]);
    PollsSendOneIdent(polls[..n], p, call, fates, base, approved, waits, d);
    ArrivalsIdent(before, CallIdent(call));
    AllIdentAppend(Arrivals(before), Arrivals(last), CallIdent(call));
    WaitArrivals(p, call, fates, base, approved, waits, polls, outcome, d);
  }

  lemma AllIdentAppend(a: seq<Arrival>, b: seq<Arrival>, id: Option<Ident>)
    requires AllIdent(a, id) && AllIdent(b, id)
    ensures AllIdent(a + b, id)
  {
  }

  lemma PollSendsOneIdent(p: Policy, call: Call, fates: Fates, base: nat, poll: Run)
    requires p.Valid() && poll == RunOf(p, call, fates, base)
    ensures SentIdent(Flatten(poll.attempts), CallIdent(call))
    ensures AllIdent(Arrivals(Flatten(poll.attempts)), CallIdent(call))
  {
    CallSendsOneIdent(p, call, fates, base);
    ArrivalsIdent(Flatten(poll.attempts), CallIdent(call));
  }

  // ---------------------------------------------------------------- the pace

  /** Where the events of poll k start. */
  function StartOf(polls: seq<Run>, d: int64, k: nat): nat
    requires k <= |polls|
  {
    |PollEvents(polls[..k], d)|
  }

  lemma PollEventsStep(polls: seq<Run>, d: int64, k: nat)
    requires k < |polls|
    ensures PollEvents(polls[..k + 1], d) == PollEvents(polls[..k], d) + (Flatten(polls[k].attempts) + [Slept(d)])
  {
    assert polls[..k + 1][..k] == polls[..k];
  }

  /** The events of the first polls come first. */
  lemma {:induction false} PollEventsPrefix(polls: seq<Run>, d: int64, k: nat)
    requires k <= |polls|
    ensures PollEvents(polls[..k], d) <= PollEvents(polls, d)
    decreases |polls| - k
  {
    if k == |polls| {
      assert polls[..k] == polls;
    } else {
      PollEventsStep(polls, d, k);
      PollEventsPrefix(polls, d, k + 1);
    }
  }

  /**
   * Poll k's events stand together in those of the wait, and the event right before those of any
   * poll but the first is a sleep: so between the sends of two successive polls the wait sleeps
   * for at least a second.
   */
  lemma PollsPaced(polls: seq<Run>, interval: int64, outcome: PoolLink.Outcome, k: nat)
    requires k < |polls|
    ensures var d := PollWait(interval);
            var es, own := WaitEvents(polls, d, outcome), Flatten(polls[k].attempts);
            var i := StartOf(polls, d, k);
            && i + |own| <= |es| && es[i..i + |own|] == own
            && (k + 1 < |polls| ==> StartOf(polls, d, k + 1) == i + |own| + 1 <= |es| && es[i + |own|] == Slept(d))
            && d >= SECOND
  {
    var d := PollWait(interval);
    LastPollEvents(polls, d, outcome);
    PollEventsStep(polls, d, k);
    var n, own := |polls| - 1, Flatten(polls[k].attempts);
    var all := WaitEvents(polls, d, outcome);
    if k < n {
      assert polls[..n][..k + 1] == polls[..k + 1];
      PollEventsPrefix(polls[..n], d, k + 1);
      SleepStandsIn(PollEvents(polls[..k], d), own, d, PollEvents(polls[..n], d), all);
    } else {
      StandsIn(PollEvents(polls[..k], d), own, all);
    }
  }

  lemma LastPollEvents(polls: seq<Run>, d: int64, outcome: PoolLink.Outcome)
    requires polls != []
    ensures var before := PollEvents(polls[..|polls| - 1], d);
            before <= before + Flatten(polls[|polls| - 1].attempts) <= WaitEvents(polls, d, outcome)
  {
    var before, own := PollEvents(polls[..|polls| - 1], d), Flatten(polls[|polls| - 1].attempts);
    ConcatAssociative(before, own, [Slept(d)]);
  }

  lemma StandsIn(before: seq<Event>, own: seq<Event>, all: seq<Event>)
    requires before + own <= all
    ensures |before| + |own| <= |all| && all[|before|..|before| + |own|] == own
  {
    assert all == before + own + all[|before| + |own|..];
  }

  lemma SleepStandsIn(before: seq<Event>, own: seq<Event>, d: int64, some: seq<Event>, all: seq<Event>)
    requires before + (own + [Slept(d)]) <= some <= all
    ensures |before| + |own| < |all| && all[|before|..|before| + |own|] == own && all[|before| + |own|] == Slept(d)
  {
    ConcatAssociative(before, own, [Slept(d)]);
    StandsIn(before + own, [Slept(d)], all);
    StandsIn(before, own, all);
  }

  /** The wait between polls is what the grant asks, or a second if that is longer, unless the product overflows. */
  lemma PollWaitIs(interval: int64)
    requires -(MAX / SECOND) <= interval <= MAX / SECOND
    ensures PollWait(interval) == Max(interval * SECOND, 1_000_000_000)
  {
  }

  /** The wait between polls is at least what the grant asks exactly when the product does not overflow. */
  lemma PollWaitHonorsIff(interval: int64)
    ensures PollWait(interval) >= interval * SECOND <==> interval <= MAX / SECOND
  {
  }
}
