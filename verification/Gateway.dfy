/**
 * The realtime client's position in the workspace stream and its dispatch queue: what a frame,
 * an accepted join and a dispatch do to them.
 */
module Gateway {
  import opened Base

  datatype Kind = Reply | ChannelDown | Resumed | ResumeFailed | Workspace(name: string)

  /**
   * A decoded frame. primary says whether it came on the workspace channel; number and current are
   * the numbers in its payload, zero when absent or unreadable.
   */
  datatype Frame = Frame(primary: bool, kind: Kind, number: int, current: int)

  datatype Event = Event(primary: bool, kind: Kind, number: int)

  predicate Control(k: Kind) {
    k.Reply? || k.ChannelDown?
  }

  predicate Marker(k: Kind) {
    k.Resumed? || k.ResumeFailed?
  }

  /** The position, the events queued for dispatch, and those already handed to the handlers. */
  datatype State = State(lastSeq: int, queued: seq<Event>, fired: seq<Event>) {
    /** The position a join asks to resume from. */
    function Resume(): Option<int> {
      if lastSeq > 0 then Some(lastSeq) else None
    }

    /** What an accepted join of the workspace channel does, given the sequence it reports. */
    function Joined(number: int): State {
      if lastSeq == 0 && number > 0 then this.(lastSeq := number) else this
    }

    function Advanced(number: int): State {
      if number > lastSeq && number > 0 then this.(lastSeq := number) else this
    }

    function Emitted(e: Event, capacity: nat): State {
      if |queued| < capacity then this.(queued := queued + [e]) else this
    }

    function Handled(f: Frame, capacity: nat): (s: State)
      ensures s.fired == fired && s.lastSeq >= lastSeq
      ensures s.queued ==
              if Control(f.kind) || |queued| >= capacity then queued
              else queued + [Event(f.primary, f.kind, f.number)]
    {
      if Control(f.kind) then this
      else
        var moved := if f.primary then Advanced(f.number) else this;
        var marked := if f.primary && Marker(f.kind) then moved.Advanced(f.current) else moved;
        marked.Emitted(Event(f.primary, f.kind, f.number), capacity)
    }

    /** The oldest queued event goes to the handlers. */
    function Dispatched(): (s: State)
      ensures s.fired + s.queued == fired + queued && s.lastSeq == lastSeq
      ensures |s.fired| == |fired| + (if queued != [] then 1 else 0)
    {
      if queued == [] then this else State(lastSeq, queued[1..], fired + [queued[0]])
    }
  }

  class Session {
    const capacity: nat
    var lastSeq: int
    var events: seq<Event>
    var fired: seq<Event>

    /** New with WithEventBuffer and WithResumeFrom: values that are not positive are ignored. */
    constructor (buffer: int, resumeFrom: int)
      ensures View() == State(Max(resumeFrom, 0), [], [])
      ensures capacity == if buffer > 0 then buffer else 64
    {
      capacity := if buffer > 0 then buffer else 64;
      lastSeq := if resumeFrom > 0 then resumeFrom else 0;
      events, fired := [], [];
    }

    function View(): State
      reads this
    {
      State(lastSeq, events, fired)
    }

    /** Moves the position forward, never back. */
    method AdvanceSeq(number: int)
      modifies this`lastSeq
      ensures View() == old(View()).Advanced(number)
      ensures lastSeq == if number > 0 then Max(old(lastSeq), number) else old(lastSeq)
    {
      if number <= 0 {
        return;
      }
      if number > lastSeq {
        lastSeq := number;
      }
    }

    /** Queues an event, or drops it when the queue is full. */
    method Emit(e: Event)
      modifies this`events
      ensures View() == old(View()).Emitted(e, capacity)
      ensures events == if |old(events)| < capacity then old(events) + [e] else old(events)
    {
      if |events| < capacity {
        events := events + [e];
      }
    }

    /** Handles a frame that is not a join reply; false ends the connection. */
    method HandleFrame(f: Frame) returns (ok: bool)
      modifies this`lastSeq, this`events
      ensures View() == old(View()).Handled(f, capacity)
      ensures f.primary && f.kind.Workspace? ==>
        lastSeq == if f.number > 0 then Max(old(lastSeq), f.number) else old(lastSeq)
      ensures f.primary && Marker(f.kind) ==>
        && lastSeq in {old(lastSeq), f.number, f.current} && lastSeq >= old(lastSeq)
        && (f.number > 0 ==> lastSeq >= f.number) && (f.current > 0 ==> lastSeq >= f.current)
      ensures !f.primary || Control(f.kind) ==> lastSeq == old(lastSeq)
      ensures ok == !(f.kind.ChannelDown? && f.primary)
    {
      if f.kind.Reply? {
        return true;
      }
      if f.kind.ChannelDown? {
        return !f.primary;
      }
      if f.primary {
        AdvanceSeq(f.number);
        if Marker(f.kind) {
          AdvanceSeq(f.current);
        }
      }
      Emit(Event(f.primary, f.kind, f.number));
      return true;
    }

    /** sendJoin of the workspace channel: the position to resume from, if there is one. */
    method SendJoin() returns (resume: Option<int>)
      ensures resume == View().Resume()
      ensures resume == if lastSeq > 0 then Some(lastSeq) else None
    {
      if lastSeq > 0 {
        return Some(lastSeq);
      }
      return None;
    }

    /** Adopts the stream's position, but only on a fresh start. */
    method AdoptReady(number: int)
      modifies this`lastSeq
      ensures View() == old(View()).Joined(number)
      ensures lastSeq == if old(lastSeq) == 0 && number > 0 then number else old(lastSeq)
    {
      if lastSeq == 0 && number > 0 {
        lastSeq := number;
      }
    }

    /** One turn of the dispatch loop. */
    method DispatchOne()
      modifies this`events, this`fired
      ensures View() == old(View()).Dispatched()
      ensures fired + events == old(fired) + old(events)
      ensures old(events) != [] ==> fired == old(fired) + [old(events)[0]]
    {
      if events != [] {
        fired := fired + [events[0]];
        events := events[1..];
      }
    }
  }
}
