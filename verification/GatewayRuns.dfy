/** Whole sessions of the realtime client: exactly what is lost, for good, and what comes twice. */
module GatewayRuns {
  import opened Base
  import opened Gateway
  import opened GatewayResume

  function Start(resumeFrom: nat): Sys {
    Sys(State(resumeFrom, [], []), resumeFrom, resumeFrom > 0, None, {}, {})
  }

  ghost predicate Legal(w: Wants, s: Sys, steps: seq<Step>, capacity: nat)
    decreases |steps|
  {
    steps != [] ==> Allowed(w, s, steps[0]) && Legal(w, Apply(w, s, steps[0], capacity), steps[1..], capacity)
  }

  ghost function Exec(w: Wants, s: Sys, steps: seq<Step>, capacity: nat): Sys
    requires Legal(w, s, steps, capacity)
    decreases |steps|
  {
    if steps == [] then s else Exec(w, Apply(w, s, steps[0], capacity), steps[1..], capacity)
  }

  lemma {:induction false} InvInRuns(w: Wants, s: Sys, steps: seq<Step>, capacity: nat)
    requires Inv(w, s) && Legal(w, s, steps, capacity)
    ensures Inv(w, Exec(w, s, steps, capacity))
    decreases |steps|
  {
    if steps != [] {
      InvStep(w, s, steps[0], capacity);
      InvInRuns(w, Apply(w, s, steps[0], capacity), steps[1..], capacity);
    }
  }

  /**
   * At any point of any session, the wanted events the client has gone past without accepting are
   * exactly those lost with ended connections, those a full queue dropped, and those the current
   * connection has still to send.
   */
  lemma LossExactly(w: Wants, resumeFrom: nat, steps: seq<Step>, capacity: nat, x: int)
    requires Legal(w, Start(resumeFrom), steps, capacity)
    ensures var s := Exec(w, Start(resumeFrom), steps, capacity);
            Missing(w, s, x) <==>
              && s.floor < x <= s.client.lastSeq && w(x)
              && (x in s.lost || x in s.dropped || (s.link.Some? && s.link.value.Unsent(x)))
  {
    InvInRuns(w, Start(resumeFrom), steps, capacity);
  }

  /** Only the two feeds add to what has been accepted. */
  lemma Effect(w: Wants, s: Sys, step: Step, capacity: nat)
    requires Inv(w, s) && Allowed(w, s, step)
    ensures Accepted(Apply(w, s, step, capacity).client) == Accepted(s.client) +
            if (step.Replay? || step.Live?) && |s.client.queued| < capacity then multiset{step.x} else multiset{}
  {
    var client := Apply(w, s, step, capacity).client;
    match step
    case Join(current, _, _) =>
      assert client.fired == s.client.fired && client.queued == s.client.queued;
    case Replay(x) =>
      assert client == s.client.Handled(Sequenced(x), capacity);
      AcceptedAfter(s.client, Sequenced(x), capacity);
    case Live(x) =>
      assert client == s.client.Handled(Sequenced(x), capacity);
      AcceptedAfter(s.client, Sequenced(x), capacity);
    case Mark(current) =>
      var f := Frame(true, if s.link.value.evicted then ResumeFailed else Resumed, 0, current);
      assert client == s.client.Handled(f, capacity);
      AcceptedAfter(s.client, f, capacity);
    case Aside(f) =>
      AcceptedAfter(s.client, f, capacity);
    case Fire =>
      FireKeepsAccepted(s.client);
    case Drop =>
  }

  // ---------------------------------------------------------------- the position

  /** The number a step reports to a client at the given position, if it reports one that counts. */
  function Reported(position: int, step: Step): Option<int> {
    match step
    case Join(current, _, _) => if position > 0 then None else Some(current)
    case Replay(x) => Some(x)
    case Live(x) => Some(x)
    case Mark(current) => Some(current)
    case _ => None
  }

  /** The highest number reported so far, step by step. */
  function Highest(position: int, steps: seq<Step>): int
    decreases |steps|
  {
    if steps == [] then position
    else
      var n := Reported(position, steps[0]);
      Highest(if n.Some? then Max(position, n.value) else position, steps[1..])
  }

  lemma PositionStep(w: Wants, s: Sys, step: Step, capacity: nat)
    requires Inv(w, s) && Allowed(w, s, step)
    ensures var n := Reported(s.client.lastSeq, step);
            Apply(w, s, step, capacity).client.lastSeq == if n.Some? then Max(s.client.lastSeq, n.value)
              else s.client.lastSeq
  {
  }

  /** After any run the client's position is the highest number it was told, no more and no less. */
  lemma {:induction false} PositionInRuns(w: Wants, s: Sys, steps: seq<Step>, capacity: nat)
    requires Inv(w, s) && Legal(w, s, steps, capacity)
    ensures Exec(w, s, steps, capacity).client.lastSeq == Highest(s.client.lastSeq, steps)
    decreases |steps|
  {
    if steps != [] {
      InvStep(w, s, steps[0], capacity);
      PositionStep(w, s, steps[0], capacity);
      PositionInRuns(w, Apply(w, s, steps[0], capacity), steps[1..], capacity);
    }
  }

  /**
   * The highest number is the one to start with or one a step carried, and none that a feed or a
   * marker carried is higher.
   */
  lemma {:induction false} HighestIsReported(position: int, steps: seq<Step>)
    requires position >= 0
    ensures var h := Highest(position, steps);
            && h >= position
            && (h == position || exists k :: 0 <= k < |steps| && Number(steps[k]) == Some(h))
            && (forall k :: 0 <= k < |steps| && !steps[k].Join? && Number(steps[k]).Some? ==>
              Number(steps[k]).value <= h)
    decreases |steps|
  {
    if steps != [] {
      var n := Reported(position, steps[0]);
      var next := if n.Some? then Max(position, n.value) else position;
      HighestIsReported(next, steps[1..]);
      var h := Highest(position, steps);
      if h != next {
        var k :| 0 <= k < |steps[1..]| && Number(steps[1..][k]) == Some(h);
        assert Number(steps[k + 1]) == Some(h);
      } else if h != position {
        assert Number(steps[0]) == Some(h);
      }
      forall k | 0 <= k < |steps| && !steps[k].Join? && Number(steps[k]).Some?
        ensures Number(steps[k]).value <= h
      {
        if k > 0 {
          assert steps[1..][k - 1] == steps[k];
        }
      }
    }
  }

  /** The number a step carries. */
  function Number(step: Step): Option<int> {
    match step
    case Join(current, _, _) => Some(current)
    case Replay(x) => Some(x)
    case Live(x) => Some(x)
    case Mark(current) => Some(current)
    case _ => None
  }

  /** A join with a position resumes right after it; one without starts where the stream stands. */
  lemma JoinResumes(w: Wants, s: Sys, step: Step, capacity: nat)
    requires Inv(w, s) && Allowed(w, s, step) && step.Join?
    ensures var s' := Apply(w, s, step, capacity);
            && s'.link.Some? && s'.link.value.live == step.current
            && s'.link.value.replay == (if s.client.lastSeq > 0 then s.client.lastSeq else step.current)
            && (s.client.lastSeq > 0 ==> s' == s.(link := s'.link))
  {
  }

  /** Nothing accepted is taken back or put in another order, and handlers get it in that order. */
  lemma {:induction false} OrderKept(w: Wants, s: Sys, steps: seq<Step>, capacity: nat)
    requires Legal(w, s, steps, capacity)
    ensures var c, c' := s.client, Exec(w, s, steps, capacity).client;
            c.fired + c.queued <= c'.fired + c'.queued && c.fired <= c'.fired
    decreases |steps|
  {
    if steps != [] {
      OrderStep(w, s, steps[0], capacity);
      OrderKept(w, Apply(w, s, steps[0], capacity), steps[1..], capacity);
    }
  }

  lemma OrderStep(w: Wants, s: Sys, step: Step, capacity: nat)
    requires Allowed(w, s, step)
    ensures var c, c' := s.client, Apply(w, s, step, capacity).client;
            c.fired + c.queued <= c'.fired + c'.queued && c.fired <= c'.fired
  {
    var c, c' := s.client, Apply(w, s, step, capacity).client;
    if step.Fire? {
      assert c'.fired == c.fired + [c.queued[0]];
    } else {
      assert c'.fired == c.fired && c.queued <= c'.queued;
    }
  }

  // ---------------------------------------------------------------- for good

  /** An event the client has gone past, seen from a later state: this connection will not send it either. */
  predicate Behind(s: Sys, x: int) {
    x <= (if s.link.Some? then s.link.value.from else s.client.lastSeq) && x !in Accepted(s.client)
  }

  lemma StaysBehind(w: Wants, s: Sys, step: Step, capacity: nat, x: int)
    requires Inv(w, s) && Allowed(w, s, step) && Behind(s, x)
    ensures Behind(Apply(w, s, step, capacity), x)
  {
    Effect(w, s, step, capacity);
  }

  /** What is missing when a connection has ended is never delivered, however the session goes on. */
  lemma {:induction false} LostForever(w: Wants, s: Sys, steps: seq<Step>, capacity: nat, x: int)
    requires Inv(w, s) && Legal(w, s, steps, capacity) && Behind(s, x)
    ensures Behind(Exec(w, s, steps, capacity), x)
    decreases |steps|
  {
    if steps != [] {
      InvStep(w, s, steps[0], capacity);
      StaysBehind(w, s, steps[0], capacity, x);
      LostForever(w, Apply(w, s, steps[0], capacity), steps[1..], capacity, x);
    }
  }

  // ---------------------------------------------------------------- when nothing is lost

  /**
   * A step that loses nothing above a floor. A connection may end if its replay has come as far
   * as the client's position, or through the backlog of its join with the live feed as far as
   * the client's position; and it may be joined at position zero if nothing has happened yet.
   */
  ghost predicate Harmless(w: Wants, s: Sys, step: Step, floor: nat) {
    match step
    case Join(current, _, _) => s.client.Resume().Some? || !s.started || NoneWanted(w, floor, current)
    case Drop => s.link.Some? ==> Caught(w, s.link.value, s.client.lastSeq, floor)
    case _ => true
  }

  /** No wanted event above the floor and up to the position is still to be sent. */
  ghost predicate Caught(w: Wants, l: Link, lastSeq: int, floor: nat) {
    && NoneWanted(w, Max(l.replay, floor), Min(l.current, lastSeq))
    && NoneWanted(w, Max(Max(l.replay, l.live), floor), lastSeq)
  }

  ghost predicate AllHarmless(w: Wants, s: Sys, steps: seq<Step>, capacity: nat, floor: nat)
    requires Legal(w, s, steps, capacity)
    decreases |steps|
  {
    steps != [] ==>
      Harmless(w, s, steps[0], floor) && AllHarmless(w, Apply(w, s, steps[0], capacity), steps[1..], capacity, floor)
  }

  ghost predicate NoneAbove(a: set<int>, floor: nat) {
    forall x :: x in a ==> x <= floor
  }

  /** Only wanted events that have been gone past are ever lost or dropped. */
  ghost predicate OnlyWanted(w: Wants, s: Sys) {
    forall x :: x in s.lost || x in s.dropped ==> w(x) && x <= s.client.lastSeq
  }

  lemma OnlyWantedStep(w: Wants, s: Sys, step: Step, capacity: nat)
    requires Inv(w, s) && OnlyWanted(w, s) && Allowed(w, s, step)
    ensures OnlyWanted(w, Apply(w, s, step, capacity))
  {
  }

  lemma LosesIff(w: Wants, s: Sys, step: Step, capacity: nat, floor: nat)
    requires Inv(w, s) && Allowed(w, s, step)
    ensures var s' := Apply(w, s, step, capacity);
            NoneAbove(s'.lost, floor) <==> NoneAbove(s.lost, floor) && Harmless(w, s, step, floor)
  {
    match step
    case Join(current, _, _) =>
      if s.client.Resume().None? && s.started {
        assert forall x :: x in WantedUpTo(w, current) <==> 0 < x <= current && w(x);
      }
    case Drop => CaughtIff(w, s.link.value, s.client.lastSeq, floor);
    case _ =>
  }

  lemma CaughtIff(w: Wants, l: Link, lastSeq: int, floor: nat)
    requires l.current <= l.live
    ensures NoneAbove(Outstanding(w, l, lastSeq), floor) <==> Caught(w, l, lastSeq, floor)
  {
    var left := Outstanding(w, l, lastSeq);
    assert forall x :: x in left <==> l.replay < x <= lastSeq && w(x) && l.Unsent(x);
    if NoneAbove(left, floor) {
      assert forall x :: floor < x && l.replay < x <= lastSeq && w(x) ==> !l.Unsent(x);
    }
  }

  lemma {:induction false} HarmlessIff(w: Wants, s: Sys, steps: seq<Step>, capacity: nat, floor: nat)
    requires Inv(w, s) && OnlyWanted(w, s) && Legal(w, s, steps, capacity)
    ensures var s' := Exec(w, s, steps, capacity);
            && Inv(w, s') && OnlyWanted(w, s')
            && (NoneAbove(s'.lost, floor) <==> NoneAbove(s.lost, floor) && AllHarmless(w, s, steps, capacity, floor))
    decreases |steps|
  {
    if steps != [] {
      InvStep(w, s, steps[0], capacity);
      OnlyWantedStep(w, s, steps[0], capacity);
      LosesIff(w, s, steps[0], capacity, floor);
      HarmlessIff(w, Apply(w, s, steps[0], capacity), steps[1..], capacity, floor);
    }
  }

  /**
   * A session between connections misses no wanted event above its floor, the last gap reported
   * to a handler, if and only if above it the queue dropped none for good, no connection ended
   * with its replay overtaken or its feeds behind the position it had reported, and none was
   * joined anew at position zero after events had passed.
   */
  lemma NothingMissingIff(w: Wants, resumeFrom: nat, steps: seq<Step>, capacity: nat)
    requires Legal(w, Start(resumeFrom), steps, capacity)
    requires Exec(w, Start(resumeFrom), steps, capacity).link.None?
    ensures var s := Exec(w, Start(resumeFrom), steps, capacity);
            && s.floor >= 0
            && ((forall x :: !Missing(w, s, x)) <==>
                 AllHarmless(w, Start(resumeFrom), steps, capacity, s.floor) && NoneAbove(s.dropped, s.floor))
  {
    var s := Exec(w, Start(resumeFrom), steps, capacity);
    InvInRuns(w, Start(resumeFrom), steps, capacity);
    HarmlessIff(w, Start(resumeFrom), steps, capacity, s.floor);
    assert forall x :: Missing(w, s, x) <==> x > s.floor && (x in s.lost || x in s.dropped);
  }

  // ---------------------------------------------------------------- the overtaking, concretely

  /** Resume from 10 with the stream at 12; event 13 arrives live before the replay, and the connection ends. */
  function Overtaking(): seq<Step> {
    [Join(12, 12, false), Live(13), Drop]
  }

  /** A brief disconnect can lose events for good, with a fair server and room in the queue. */
  lemma OvertakingLoses(w: Wants, capacity: nat, steps: seq<Step>)
    requires capacity > 0 && w(11) && w(13)
    ensures Legal(w, Start(10), Overtaking(), capacity)
    ensures var s := Exec(w, Start(10), Overtaking(), capacity);
            && s.link.None? && s.dropped == {} && Missing(w, s, 11)
            && (Legal(w, s, steps, capacity) ==> 11 !in Accepted(Exec(w, s, steps, capacity).client))
  {
    var s0 := Start(10);
    var s1 := Apply(w, s0, Join(12, 12, false), capacity);
    assert Allowed(w, s1, Live(13));
    var s2 := Apply(w, s1, Live(13), capacity);
    var s3 := Apply(w, s2, Drop, capacity);
    assert Overtaking()[1..] == [Live(13), Drop] && [Live(13), Drop][1..] == [Drop] && [Drop][1..] == [];
    assert Legal(w, s3, [], capacity) && Exec(w, s3, [], capacity) == s3;
    assert Legal(w, s2, [Drop], capacity) && Exec(w, s2, [Drop], capacity) == s3;
    assert Legal(w, s1, [Live(13), Drop], capacity) && Exec(w, s1, [Live(13), Drop], capacity) == s3;
    assert s2.client.lastSeq == 13 && s2.dropped == {} && s2.link.value.Unsent(11);
    InvInRuns(w, s0, Overtaking(), capacity);
    assert 11 in s3.lost;
    LossExactly(w, 10, Overtaking(), capacity, 11);
    if Legal(w, s3, steps, capacity) {
      LostForever(w, s3, steps, capacity, 11);
    }
  }

  // ---------------------------------------------------------------- twice

  /** How often the current connection has sent an event it could send. */
  function Times(l: Link, x: int): nat {
    (if x <= l.replay then 1 else 0) + if l.current < x <= l.live then 1 else 0
  }

  /** Events come at most n times, and more than once only from a connection that sent them on both feeds. */
  ghost predicate CountInv(s: Sys, n: nat) {
    && (forall x :: Accepted(s.client)[x] <= n)
    && (s.link.Some? ==>
          var l := s.link.value;
          && (n == 1 ==> l.upto == l.current && l.replay <= l.upto)
          && forall x :: x > l.from ==> Accepted(s.client)[x] <= Times(l, x))
  }

  lemma CountStep(w: Wants, s: Sys, step: Step, capacity: nat, n: nat)
    requires Inv(w, s) && CountInv(s, n) && Allowed(w, s, step)
    requires n == 2 || (n == 1 && NoOverlap(step))
    ensures CountInv(Apply(w, s, step, capacity), n)
  {
    Effect(w, s, step, capacity);
    var s' := Apply(w, s, step, capacity);
    if step.Replay? || step.Live? {
      CountSent(s, s', step.x, |s.client.queued| < capacity, n);
    } else {
      CountKept(s, s', n);
    }
  }

  lemma CountSent(s: Sys, s': Sys, x: int, room: bool, n: nat)
    requires CountInv(s, n) && s.link.Some? && s'.link.Some? && 1 <= n <= 2
    requires var l, l' := s.link.value, s'.link.value;
             || (l' == l.(replay := x) && l.replay < x <= l.upto)
             || (l' == l.(live := x) && l.current <= l.live < x)
    requires s.link.value.from <= s.link.value.replay && s.link.value.from <= s.link.value.current
    requires Accepted(s'.client) == Accepted(s.client) + if room then multiset{x} else multiset{}
    ensures CountInv(s', n)
  {
    var l, l' := s.link.value, s'.link.value;
    assert Times(l', x) == Times(l, x) + 1 && x > l.from;
    forall y
      ensures Accepted(s'.client)[y] <= n
      ensures y > l'.from ==> Accepted(s'.client)[y] <= Times(l', y)
    {
      assert Accepted(s'.client)[y] == Accepted(s.client)[y] + if room && y == x then 1 else 0;
    }
  }

  lemma CountKept(s: Sys, s': Sys, n: nat)
    requires CountInv(s, n) && Accepted(s'.client) == Accepted(s.client)
    requires s'.link.Some? ==>
               var l' := s'.link.value;
               && (n == 1 ==> l'.upto == l'.current && l'.replay <= l'.upto)
               && if s.link.Some? then l' == s.link.value.(replay := l'.replay) && s.link.value.replay <= l'.replay
                  else forall x :: x in Accepted(s.client) ==> x <= l'.from
    ensures CountInv(s', n)
  {
  }

  /** The replay ends where the stream stood at the join, which is where the live feed starts. */
  predicate NoOverlap(step: Step) {
    step.Join? ==> step.upto == step.current
  }

  /**
   * In every session no event is accepted more than twice, and none more than once when no
   * replay goes past the position of its join.
   */
  lemma {:induction false} AtMostTwice(w: Wants, s: Sys, steps: seq<Step>, capacity: nat, n: nat)
    requires Inv(w, s) && CountInv(s, n) && Legal(w, s, steps, capacity)
    requires n == 2 || (n == 1 && forall k :: 0 <= k < |steps| ==> NoOverlap(steps[k]))
    ensures CountInv(Exec(w, s, steps, capacity), n)
    decreases |steps|
  {
    if steps != [] {
      assert n == 1 ==> NoOverlap(steps[0]);
      InvStep(w, s, steps[0], capacity);
      CountStep(w, s, steps[0], capacity, n);
      AtMostTwice(w, Apply(w, s, steps[0], capacity), steps[1..], capacity, n);
    }
  }
}
