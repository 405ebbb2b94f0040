/**
 * Loss and duplication over whole sessions: the client's position against a server that on
 * every join replays the gap, or reports that it cannot, while live events keep coming. A
 * connection may end after any frame. Only some events are meant for this client; the server
 * sends those, on each of its two feeds in order.
 */
module GatewayResume {
  import opened Base
  import opened Gateway

  /** Which sequence numbers are meant for this client. */
  type Wants = int -> bool

  ghost predicate NoneWanted(w: Wants, after: int, upto: int) {
    forall x :: after < x <= upto ==> !w(x)
  }

  /**
   * A joined connection. The stream stood at current when it was joined from the position from;
   * replay and live say how far the two feeds have come, and upto how far the replay will go.
   */
  datatype Link = Link(from: int, current: int, upto: int, evicted: bool, replay: int, live: int) {
    predicate Unsent(x: int) {
      replay < x && !(current < x <= live)
    }
  }

  /**
   * floor is where the promise starts: the first join, or the last gap reported to a handler.
   * lost collects what ended connections left out, dropped what a full queue did.
   */
  datatype Sys = Sys(client: State, floor: int, started: bool, link: Option<Link>, lost: set<int>, dropped: set<int>)

  datatype Step =
    | Join(current: int, upto: int, evicted: bool)
    | Replay(x: int)
    | Live(x: int)
    | Mark(current: int)
    | Aside(frame: Frame)
    | Fire
    | Drop

  /** The server's part of the contract, and the client's own moves. */
  ghost predicate Allowed(w: Wants, s: Sys, step: Step) {
    match step
    case Join(current, upto, evicted) =>
      s.link.None? && s.client.lastSeq <= current <= upto && (evicted ==> s.client.Resume().Some?)
    case Replay(x) =>
      s.link.Some? && var l := s.link.value;
        !l.evicted && l.replay < x <= l.upto && w(x) && NoneWanted(w, l.replay, x - 1)
    case Live(x) =>
      s.link.Some? && var l := s.link.value; l.live < x && w(x) && NoneWanted(w, l.live, x - 1)
    case Mark(current) =>
      s.link.Some? && var l := s.link.value; if l.evicted then current == l.current else NoneWanted(w, l.replay, l.upto)
    case Aside(f) =>
      s.link.Some? && (f.primary ==> f.number <= 0 && !f.kind.ChannelDown? && !Marker(f.kind))
    case Fire => s.client.queued != []
    case Drop => s.link.Some?
  }

  function WantedUpTo(w: Wants, n: int): set<int> {
    set x | 0 < x <= n && w(x)
  }

  function Outstanding(w: Wants, l: Link, lastSeq: int): set<int> {
    set x | l.replay < x <= lastSeq && w(x) && l.Unsent(x)
  }

  function Sequenced(x: int): Frame {
    Frame(true, Workspace(""), x, 0)
  }

  /** A sequenced event reaches the client, which queues or drops it. */
  function Deliver(s: Sys, x: int, link: Link, capacity: nat): Sys {
    s.(client := s.client.Handled(Sequenced(x), capacity),
       link := Some(link),
       dropped := if |s.client.queued| < capacity then s.dropped - {x}
                  else if x in Accepted(s.client) then s.dropped
                  else s.dropped + {x})
  }

  function Apply(w: Wants, s: Sys, step: Step, capacity: nat): Sys
    requires Allowed(w, s, step)
  {
    match step
    case Join(current, upto, evicted) =>
      var client := s.client.Joined(current);
      if s.client.Resume().Some? then
        s.(link := Some(Link(client.lastSeq, current, upto, evicted, client.lastSeq, current)))
      else
        s.(client := client,
           link := Some(Link(current, current, current, false, current, current)),
           started := true,
           floor := if s.started then s.floor else current,
           lost := if s.started then s.lost + WantedUpTo(w, current) else s.lost)
    case Replay(x) => Deliver(s, x, s.link.value.(replay := x), capacity)
    case Live(x) => Deliver(s, x, s.link.value.(live := x), capacity)
    case Mark(current) =>
      var l := s.link.value;
      var kind := if l.evicted then ResumeFailed else Resumed;
      var marked := s.(client := s.client.Handled(Frame(true, kind, 0, current), capacity));
      if !l.evicted then marked.(link := Some(l.(replay := Max(l.replay, l.upto))))
      else if |s.client.queued| < capacity then
        marked.(link := Some(l.(replay := Max(l.replay, current))), floor := Max(s.floor, current))
      else marked
    case Aside(f) => s.(client := s.client.Handled(f, capacity))
    case Fire => s.(client := s.client.Dispatched())
    case Drop =>
      s.(link := None, lost := s.lost + Outstanding(w, s.link.value, s.client.lastSeq))
  }

  /** The sequence numbers of the events that were not dropped, with repetitions. */
  function Seqs(es: seq<Event>): multiset<int> {
    if es == [] then multiset{}
    else
      var last := es[|es| - 1];
      Seqs(es[..|es| - 1]) + if last.primary && last.number > 0 then multiset{last.number} else multiset{}
  }

  /** What the handlers have been given or are about to be given. */
  function Accepted(c: State): multiset<int> {
    Seqs(c.fired + c.queued)
  }

  /** An event the client has gone past without its handlers ever being given it. */
  predicate Missing(w: Wants, s: Sys, x: int) {
    s.floor < x <= s.client.lastSeq && w(x) && x !in Accepted(s.client)
  }

  // ---------------------------------------------------------------- one step

  lemma AcceptedAfter(c: State, f: Frame, capacity: nat)
    ensures var room := |c.queued| < capacity;
            Accepted(c.Handled(f, capacity)) == Accepted(c) +
            if room && !Control(f.kind) && f.primary && f.number > 0 then multiset{f.number} else multiset{}
  {
    SeqsSnoc(c.fired, c.queued, Event(f.primary, f.kind, f.number));
  }

  lemma SeqsSnoc(a: seq<Event>, b: seq<Event>, e: Event)
    ensures Seqs(a + (b + [e])) == Seqs(a + b) + if e.primary && e.number > 0 then multiset{e.number} else multiset{}
  {
    var all := a + (b + [e]);
    assert all[..|all| - 1] == a + b && all[|all| - 1] == e;
  }

  lemma FireKeepsAccepted(c: State)
    requires c.queued != []
    ensures Accepted(c.Dispatched()) == Accepted(c) && c.Dispatched().lastSeq == c.lastSeq
  {
    assert c.fired + [c.queued[0]] + c.queued[1..] == c.fired + c.queued;
  }

  /** How the parts of the state hang together, whatever has been sent, lost or dropped so far. */
  ghost predicate Inv(w: Wants, s: Sys) {
    && 0 <= s.floor <= s.client.lastSeq
    && (!s.started ==> s.link.None? && s.client.lastSeq == 0)
    && (forall x :: x in Accepted(s.client) ==> 0 < x <= s.client.lastSeq)
    && (forall x :: x in s.dropped ==> x <= s.client.lastSeq && x !in Accepted(s.client))
    && (forall x :: x in s.lost ==>
      x !in Accepted(s.client) && x <= if s.link.Some? then s.link.value.from else s.client.lastSeq)
    && (s.link.Some? ==> LinkInv(w, s, s.link.value))
    && Exact(w, s)
  }

  ghost predicate LinkInv(w: Wants, s: Sys, l: Link) {
    && 0 <= l.from <= l.replay && l.from <= l.current <= l.live && l.current <= l.upto
    && l.from <= s.client.lastSeq
    && (forall x :: l.Unsent(x) ==> x !in Accepted(s.client))
    && (forall x :: x > s.client.lastSeq && w(x) ==> l.Unsent(x))
  }

  /** The events gone past and never accepted are the lost, the dropped and the unsent ones. */
  ghost predicate Exact(w: Wants, s: Sys) {
    forall x :: s.floor < x <= s.client.lastSeq && w(x) ==>
      (x !in Accepted(s.client) <==> x in s.lost || x in s.dropped || (s.link.Some? && s.link.value.Unsent(x)))
  }

  lemma JoinKeeps(w: Wants, s: Sys, step: Step, capacity: nat)
    requires Inv(w, s) && Allowed(w, s, step) && step.Join?
    ensures Inv(w, Apply(w, s, step, capacity))
  {
    assert Accepted(s.client.Joined(step.current)) == Accepted(s.client);
  }

  lemma DeliverKeeps(w: Wants, s: Sys, x: int, link: Link, capacity: nat)
    requires Inv(w, s) && s.link.Some? && 0 < x && w(x)
    requires var l := s.link.value;
             || (link == l.(replay := x) && l.replay < x <= l.upto && NoneWanted(w, l.replay, x - 1))
             || (link == l.(live := x) && l.live < x && NoneWanted(w, l.live, x - 1))
    ensures Inv(w, Deliver(s, x, link, capacity))
  {
    AcceptedAfter(s.client, Sequenced(x), capacity);
    var s' := Deliver(s, x, link, capacity);
    assert s'.client.lastSeq == Max(s.client.lastSeq, x);
    SentOne(w, s, s', x, |s.client.queued| < capacity);
  }

  /** Sending the next wanted event of either feed, accepted or not, keeps everything. */
  lemma SentOne(w: Wants, s: Sys, s': Sys, x: int, room: bool)
    requires Inv(w, s) && s.link.Some? && s'.link.Some? && s'.started && s'.floor == s.floor && 0 < x && w(x)
    requires var l, l' := s.link.value, s'.link.value;
             || (l' == l.(replay := x) && l.replay < x <= l.upto && NoneWanted(w, l.replay, x - 1))
             || (l' == l.(live := x) && l.live < x && NoneWanted(w, l.live, x - 1))
    requires Accepted(s'.client) == Accepted(s.client) + if room then multiset{x} else multiset{}
    requires s'.client.lastSeq == Max(s.client.lastSeq, x) && s'.lost == s.lost
    requires s'.dropped ==
             if room then s.dropped - {x} else if x in Accepted(s.client) then s.dropped else s.dropped + {x}
    ensures Inv(w, s')
  {
    var l, l' := s.link.value, s'.link.value;
    assert forall y :: w(y) && y != x ==> (l'.Unsent(y) <==> l.Unsent(y));
    assert !l'.Unsent(x);
    assert forall y :: y != x ==>
      (y in Accepted(s'.client) <==> y in Accepted(s.client)) && (y in s'.dropped <==> y in s.dropped);
    assert x in Accepted(s'.client) <==> room || x in Accepted(s.client);
    assert x in s.lost ==> x <= l.from;
    assert LinkInv(w, s', l');
    assert Exact(w, s');
  }

  lemma MarkKeeps(w: Wants, s: Sys, step: Step, capacity: nat)
    requires Inv(w, s) && Allowed(w, s, step) && step.Mark?
    ensures Inv(w, Apply(w, s, step, capacity))
  {
    var l, c := s.link.value, step.current;
    var kind := if l.evicted then ResumeFailed else Resumed;
    var client := s.client.Handled(Frame(true, kind, 0, c), capacity);
    AcceptedAfter(s.client, Frame(true, kind, 0, c), capacity);
    assert client.lastSeq == Max(s.client.lastSeq, c);
    if !l.evicted {
      MovedOn(w, s, Sys(client, s.floor, true, Some(l.(replay := Max(l.replay, l.upto))), s.lost, s.dropped));
    } else if |s.client.queued| < capacity {
      MovedOn(w, s, Sys(client, Max(s.floor, c), true, Some(l.(replay := Max(l.replay, c))), s.lost, s.dropped));
    } else {
      MovedOn(w, s, Sys(client, s.floor, true, s.link, s.lost, s.dropped));
    }
  }

  /** Moving the position, and the replay past events that are not wanted or no longer promised, keeps everything. */
  lemma MovedOn(w: Wants, s: Sys, s': Sys)
    requires Inv(w, s) && s.link.Some? && s'.link.Some?
    requires s'.lost == s.lost && s'.dropped == s.dropped && s'.started
    requires Accepted(s'.client) == Accepted(s.client)
    requires s.client.lastSeq <= s'.client.lastSeq && s.floor <= s'.floor <= s'.client.lastSeq
    requires var l, l' := s.link.value, s'.link.value;
             l' == l.(replay := l'.replay) && l.replay <= l'.replay
             && forall x :: l.replay < x <= l'.replay && w(x) ==> x <= s'.floor || l.current < x <= l.live
    ensures Inv(w, s')
  {
    var l, l' := s.link.value, s'.link.value;
    assert forall x :: x > s'.floor && w(x) ==> (l'.Unsent(x) <==> l.Unsent(x));
  }

  lemma DropKeeps(w: Wants, s: Sys, step: Step, capacity: nat)
    requires Inv(w, s) && Allowed(w, s, step) && step.Drop?
    ensures Inv(w, Apply(w, s, step, capacity))
  {
    assert Accepted(Apply(w, s, step, capacity).client) == Accepted(s.client);
  }

  lemma InvStep(w: Wants, s: Sys, step: Step, capacity: nat)
    requires Inv(w, s) && Allowed(w, s, step)
    ensures Inv(w, Apply(w, s, step, capacity))
  {
    match step
    case Join(_, _, _) => JoinKeeps(w, s, step, capacity);
    case Replay(x) => DeliverKeeps(w, s, x, s.link.value.(replay := x), capacity);
    case Live(x) => DeliverKeeps(w, s, x, s.link.value.(live := x), capacity);
    case Mark(_) => MarkKeeps(w, s, step, capacity);
    case Aside(f) => AcceptedAfter(s.client, f, capacity);
    case Fire => FireKeepsAccepted(s.client);
    case Drop => DropKeeps(w, s, step, capacity);
  }
}
