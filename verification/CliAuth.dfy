/** The CLI device-flow poller: an unbounded loop that stretches its interval on every 429. */
module CliAuth {
  import opened Base
  import opened Int64

  /**
   * One answer to a poll. A 429 quotes the Retry-After of the response headers as a duration
   * and the retry_after of the body in seconds, zero standing for none.
   */
  datatype Poll = Pending | Denied | Other(status: string) | SlowDown(header: int64, body: int64) | Broken

  /** What happens in one round of the loop: whether the sleep survives the context, then the answer. */
  datatype Round = Round(sleepOk: bool, poll: Poll)

  type Rounds = nat -> Round

  datatype Outcome = NoHandshake | Canceled | Refused | PollFailed | Decided(status: string)

  const SLOW_DOWN: int64 := 5 * SECOND
  const DEFAULT_INTERVAL: int64 := 5 * SECOND

  predicate Continues(r: Round) {
    r.sleepOk && (r.poll.Pending? || r.poll.SlowDown?)
  }

  /** The handshake's interval, or five seconds when it is not positive as a duration. */
  function Start(hsInterval: int64): int64 {
    if Seconds(hsInterval) <= 0 then DEFAULT_INTERVAL else Seconds(hsInterval)
  }

  function Extra(p: Poll): int64
    requires p.SlowDown?
  {
    if p.header > 0 then p.header else if p.body > 0 then Seconds(p.body) else SLOW_DOWN
  }

  function SlowDowns(rounds: Rounds, n: nat): nat {
    if n == 0 then 0 else SlowDowns(rounds, n - 1) + if rounds(n - 1).poll.SlowDown? then 1 else 0
  }

  /** The interval in int64 arithmetic after n answers. */
  function Interval(rounds: Rounds, start: int64, n: nat): int64 {
    if n == 0 then start
    else
      var before := Interval(rounds, start, n - 1);
      if rounds(n - 1).poll.SlowDown? then Wrap(before + SLOW_DOWN) else before
  }

  /** The n-th sleep: the initial interval, then the current interval or what the 429 asked for. */
  function Sleep(rounds: Rounds, start: int64, n: nat): int64 {
    if n == 0 then start
    else if rounds(n - 1).poll.SlowDown? then Extra(rounds(n - 1).poll)
    else Interval(rounds, start, n - 1)
  }

  /**
   * WaitForCLIAuth: sleeps and polls until a round does not continue. horizon only says that
   * there is such a round. sleeps lists the sleeps requested, the last round's included.
   */
  method WaitForCliAuth(deviceCode: string, hsInterval: int64, rounds: Rounds, ghost horizon: nat)
    returns (outcome: Outcome, sleeps: seq<int64>, ghost last: nat)
    requires !Continues(rounds(horizon))
    ensures outcome == NoHandshake <==> deviceCode == ""
    ensures outcome == NoHandshake ==> sleeps == []
    ensures outcome != NoHandshake ==>
      && last <= horizon
      && (forall k :: 0 <= k < last ==> rounds(k).sleepOk && (rounds(k).poll.Pending? || rounds(k).poll.SlowDown?))
      && (outcome == Canceled <==> !rounds(last).sleepOk)
      && (outcome == Refused <==> rounds(last).sleepOk && rounds(last).poll.Denied?)
      && (outcome.Decided? <==> rounds(last).sleepOk && rounds(last).poll.Other?)
      && (outcome.Decided? ==> outcome.status == rounds(last).poll.status)
      && (outcome == PollFailed <==> rounds(last).sleepOk && rounds(last).poll.Broken?)
      && |sleeps| == last + 1 && forall k :: 0 <= k <= last ==> sleeps[k] == Sleep(rounds, Start(hsInterval), k)
  {
    if deviceCode == "" {
      return NoHandshake, [], 0;
    }
    var interval := Seconds(hsInterval);
    if interval <= 0 {
      interval := DEFAULT_INTERVAL;
    }
    var wait := interval;
    var n := 0;
    sleeps := [];
    while true
      invariant n <= horizon && forall k :: 0 <= k < n ==> Continues(rounds(k))
      invariant interval == Interval(rounds, Start(hsInterval), n)
      invariant wait == Sleep(rounds, Start(hsInterval), n)
      invariant |sleeps| == n && forall k :: 0 <= k < n ==> sleeps[k] == Sleep(rounds, Start(hsInterval), k)
      decreases horizon - n
    {
      sleeps := sleeps + [wait];
      if !rounds(n).sleepOk {
        return Canceled, sleeps, n;
      }
      wait := interval;
      match rounds(n).poll {
        case SlowDown(header, body) =>
          var extra := SLOW_DOWN;
          if header > 0 {
            extra := header;
          } else if body > 0 {
            extra := Seconds(body);
          }
          interval := Wrap(interval + SLOW_DOWN);
          wait := extra;
        case Broken =>
          return PollFailed, sleeps, n;
        case Pending =>
        case Denied =>
          return Refused, sleeps, n;
        case Other(status) =>
          return Decided(status), sleeps, n;
      }
      n := n + 1;
    }
  }

  /** The interval has grown by five seconds per 429, modulo 2^64. */
  lemma {:induction false} IntervalGrows(rounds: Rounds, start: int64, n: nat)
    ensures Interval(rounds, start, n) == Wrap(start + SLOW_DOWN * SlowDowns(rounds, n))
    ensures start > 0 ==>
      (Interval(rounds, start, n) == start + SLOW_DOWN * SlowDowns(rounds, n) <==>
        start + SLOW_DOWN * SlowDowns(rounds, n) <= MAX)
  {
    if n > 0 {
      IntervalGrows(rounds, start, n - 1);
      var before := SlowDowns(rounds, n - 1);
      WrapTwice(start + SLOW_DOWN * before, SLOW_DOWN);
      assert start + SLOW_DOWN * before + SLOW_DOWN == start + SLOW_DOWN * (before + 1);
    }
  }

  function Total(rounds: Rounds, start: int64, n: nat): int {
    if n == 0 then 0 else Total(rounds, start, n - 1) + Sleep(rounds, start, n - 1)
  }

  /** What the sleep after answer k amounts to, without reference to the loop's variables. */
  function Asked(rounds: Rounds, start: int64, k: nat): int {
    if rounds(k).poll.SlowDown? then Extra(rounds(k).poll) else Wrap(start + SLOW_DOWN * SlowDowns(rounds, k))
  }

  function TotalAsked(rounds: Rounds, start: int64, n: nat): int {
    if n == 0 then 0 else TotalAsked(rounds, start, n - 1) + Asked(rounds, start, n - 1)
  }

  /**
   * The time slept before the poll of round n is the initial interval, plus the stretched
   * interval for each pending answer, plus what each 429 asked for.
   */
  lemma {:induction false} TotalSleep(rounds: Rounds, start: int64, n: nat)
    ensures Total(rounds, start, n + 1) == start + TotalAsked(rounds, start, n)
  {
    if n > 0 {
      TotalSleep(rounds, start, n - 1);
      IntervalGrows(rounds, start, n - 1);
    }
  }

  /** The n-th sleep by what came before it: the start, a pending answer, a header, or nothing quoted at all. */
  lemma SleepAfter(rounds: Rounds, hsInterval: int64, n: nat)
    ensures var start := Start(hsInterval);
            && start > 0
            && (0 < hsInterval <= MAX / SECOND ==> start == hsInterval * SECOND)
            && (-(MAX / SECOND) <= hsInterval <= 0 ==> start == 5 * SECOND)
            && Sleep(rounds, start, 0) == start
            && (rounds(n).poll.Pending? ==>
              Sleep(rounds, start, n + 1) == Wrap(start + 5 * SECOND * SlowDowns(rounds, n)))
            && (rounds(n).poll.SlowDown? ==>
                 var p := rounds(n).poll;
                 && (p.header > 0 ==> Sleep(rounds, start, n + 1) == p.header)
                 && (p.header <= 0 && p.body <= 0 ==> Sleep(rounds, start, n + 1) == 5 * SECOND))
  {
    IntervalGrows(rounds, Start(hsInterval), n);
  }

  /**
   * A 429 that quotes its wait only in the body is slept on for as long as it asked if and only
   * if that is at most MAX / SECOND seconds, and for a positive time if and only if the low 64
   * bits of the product are, read as a signed number.
   */
  lemma AskedHonoredIff(rounds: Rounds, start: int64, n: nat)
    requires n > 0 && rounds(n - 1).poll.SlowDown?
    requires rounds(n - 1).poll.header <= 0 < rounds(n - 1).poll.body
    ensures var asked := rounds(n - 1).poll.body * SECOND;
            && (Sleep(rounds, start, n) == asked <==> rounds(n - 1).poll.body <= MAX / SECOND)
            && (Sleep(rounds, start, n) > 0 <==> 0 < asked % TWO_64 < TWO_63)
  {
    WrapIsLowBits(rounds(n - 1).poll.body * SECOND);
  }

  /** A 429 whose body asks for 292 years makes the poller ask again at once. */
  lemma ExtraCanSpin()
    ensures Extra(SlowDown(0, 9_223_372_037)) < 0
  {
  }
}
