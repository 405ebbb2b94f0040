/** The WebSocket connection: writing whole frames, and reading messages from fragments. */
module WsConn {
  import opened Base
  import opened Int64
  import opened WsFrame

  /** Masking keys and write failures, by the number of the frame written. */
  type Keys = nat -> Key
  type Fates = nat -> bool

  datatype Outcome =
    | Message(kind: nat, payload: Bytes)
    | Closed(code: nat, reason: Bytes)
    | Broken(fault: Fault)
    | WriteFailed
    | NewDataMidMessage
    | ContinuationWithoutStart
    | UnknownOpcode(opcode: nat)

  datatype Reply = Reply(opcode: nat, payload: Bytes)

  /** The outcome of reading a message, the bytes it consumed, and the control frames it sent. */
  datatype Reading = Reading(outcome: Outcome, size: nat, replies: seq<Reply>) {
    /** Read after that many bytes, with the answer sent for them, if any. */
    function After(size: nat, reply: Option<Reply>): Reading {
      Reading(outcome, size + this.size, if reply.Some? then [reply.value] + replies else replies)
    }

    /** Read after that many bytes and those answers. */
    function Onto(size: nat, replies: seq<Reply>): Reading {
      Reading(outcome, size + this.size, replies + this.replies)
    }
  }

  /** 1005 stands for a close frame without a status. */
  function ParseClose(payload: Bytes): Outcome {
    if |payload| < 2 then Closed(1005, []) else Closed(Big(payload[..2]), payload[2..])
  }

  /** Reading on when a message of the given kind has been started, with payload so far. */
  function Collect(input: Bytes, max: int, fates: Fates, k: nat, started: Option<nat>, payload: Bytes): Reading
    decreases |input|
  {
    match Read(input, max - |payload|)
    case Err(e) => Reading(Broken(e), 0, [])
    case Ok(p) =>
      var f, rest := p.frame, input[p.size..];
      if f.opcode == PING then
        if fates(k) then Collect(rest, max, fates, k + 1, started, payload).After(p.size, Some(Reply(PONG, f.payload)))
        else Reading(WriteFailed, p.size, [])
      else if f.opcode == PONG then
        Collect(rest, max, fates, k, started, payload).After(p.size, None)
      else if f.opcode == CLOSE then
        Reading(ParseClose(f.payload), p.size, if fates(k) then [Reply(CLOSE, f.payload)] else [])
      else if Refusal(f.opcode, started).Some? then
        Reading(Refusal(f.opcode, started).value, p.size, [])
      else
        var kind := if started.Some? then started.value else f.opcode;
        if f.fin then Reading(Message(kind, payload + f.payload), p.size, [])
        else Collect(rest, max, fates, k, Some(kind), payload + f.payload).After(p.size, None)
  }

  /** Why a data frame cannot come here, if it cannot. */
  function Refusal(opcode: nat, started: Option<nat>): Option<Outcome> {
    if opcode == TEXT || opcode == BINARY then
      if started.Some? then Some(NewDataMidMessage) else None
    else if opcode == CONTINUATION then
      if started.None? then Some(ContinuationWithoutStart) else None
    else Some(UnknownOpcode(opcode))
  }

  // ---------------------------------------------------------------- the theorems

  /** No peer can make a message larger than the limit, or of a kind other than text or binary. */
  lemma {:induction false} MessageBounded(
      input: Bytes, max: int, fates: Fates, k: nat, started: Option<nat>, payload: Bytes)
    requires |payload| <= max && (started.Some? ==> started.value == TEXT || started.value == BINARY)
    ensures var o := Collect(input, max, fates, k, started, payload).outcome;
            o.Message? ==> payload <= o.payload && |o.payload| <= max && (o.kind == TEXT || o.kind == BINARY)
    decreases |input|
  {
    var r := Read(input, max - |payload|);
    if r.Ok? {
      var f, rest := r.value.frame, input[r.value.size..];
      if f.opcode == PING {
        MessageBounded(rest, max, fates, k + 1, started, payload);
      } else if f.opcode == PONG {
        MessageBounded(rest, max, fates, k, started, payload);
      } else if f.opcode != CLOSE && Refusal(f.opcode, started).None? {
        var _, _ := ReadOnlyEncodings(input, max - |payload|);
        if !f.fin {
          var kind := if started.Some? then started.value else f.opcode;
          MessageBounded(rest, max, fates, k, Some(kind), payload + f.payload);
        }
      }
    }
  }

  /** A piece of a message, or a control frame between the pieces, with its encoding chosen by the peer. */
  datatype Item =
    | Part(form: Form, key: Option<Key>, payload: Bytes)
    | Ping(form: Form, key: Option<Key>, payload: Bytes)
    | Pong(form: Form, key: Option<Key>, payload: Bytes)

  predicate Sendable(items: seq<Item>) {
    items == [] ||
    (items[0].form.Holds(|items[0].payload|) && (items[0].Part? || |items[0].payload| <= 125) && Sendable(items[1..]))
  }

  function Parts(items: seq<Item>): Bytes {
    if items == [] then [] else if items[0].Part? then items[0].payload + Parts(items[1..]) else Parts(items[1..])
  }

  function Pongs(items: seq<Item>): seq<Reply> {
    if items == [] then []
    else if items[0].Ping? then [Reply(PONG, items[0].payload)] + Pongs(items[1..])
    else Pongs(items[1..])
  }

  /** The frame of the first item: the first part names the kind, and the last item ends the message. */
  function FrameOf(item: Item, last: bool, started: bool, kind: nat): Frame {
    match item
    case Part(_, _, payload) => Frame(last, if started then CONTINUATION else kind, payload)
    case Ping(_, _, payload) => Frame(true, PING, payload)
    case Pong(_, _, payload) => Frame(true, PONG, payload)
  }

  function Wire(items: seq<Item>, started: bool, kind: nat): Bytes
    requires Sendable(items) && kind < 16
  {
    if items == [] then []
    else
      var item := items[0];
      Encode(item.form, FrameOf(item, |items| == 1, started, kind), item.key)
        + Wire(items[1..], started || item.Part?, kind)
  }

  /** A message of at most max bytes, of a kind that exists, ending with a part. */
  predicate Fragmented(items: seq<Item>, kind: nat, max: int, sofar: nat) {
    && Sendable(items) && items != [] && items[|items| - 1].Part?
    && (kind == TEXT || kind == BINARY) && sofar + |Parts(items)| <= max
  }

  /**
   * However a message is fragmented, encoded, and interleaved with pings and pongs, reading gives
   * back its kind and its bytes, answers each ping with its own payload, and stops where it ends.
   */
  lemma {:induction false} Reassembled(
      items: seq<Item>, kind: nat, max: int, fates: Fates, k: nat, started: bool, sofar: Bytes, tail: Bytes)
    requires Fragmented(items, kind, max, |sofar|)
    requires forall j :: fates(j)
    ensures var r := Collect(Wire(items, started, kind) + tail, max, fates, k, Started(started, kind), sofar);
            Delivers(r, items, started, kind, sofar)
    decreases |items|
  {
    FirstItem(items, kind, max, |sofar|);
    if |items| > 1 {
      var item := items[0];
      Reassembled(items[1..], kind, max, fates, Answers(item, k), started || item.Part?, Extended(item, sofar), tail);
    }
    OneItemMore(items, kind, max, fates, k, started, sofar, tail);
  }

  /** What reading comes to: the message, its size and the pongs. */
  predicate Delivers(r: Reading, items: seq<Item>, started: bool, kind: nat, sofar: Bytes)
    requires Sendable(items) && kind < 16
  {
    r == Reading(Message(kind, sofar + Parts(items)), |Wire(items, started, kind)|, Pongs(items))
  }

  lemma OneItemMore(
      items: seq<Item>, kind: nat, max: int, fates: Fates, k: nat, started: bool, sofar: Bytes, tail: Bytes)
    requires Fragmented(items, kind, max, |sofar|)
    requires forall j :: fates(j)
    requires |items| > 1 ==>
               var item, started' := items[0], started || items[0].Part?;
               var later, sofar' := Wire(items[1..], started', kind) + tail, Extended(item, sofar);
               Delivers(Collect(later, max, fates, Answers(item, k), Started(started', kind), sofar'),
                        items[1..], started', kind, sofar')
    ensures var r := Collect(Wire(items, started, kind) + tail, max, fates, k, Started(started, kind), sofar);
            Delivers(r, items, started, kind, sofar)
  {
    ReadItem(items, kind, max, fates, k, started, sofar, tail);
    FirstItem(items, kind, max, |sofar|);
    if |items| > 1 {
      Whole(items, kind, sofar, |Wire(items, started, kind)|, |Wire(items[1..], started || items[0].Part?, kind)|);
    }
  }

  /** The kind of the message being read, if one has been started. */
  function Started(started: bool, kind: nat): Option<nat> {
    if started then Some(kind) else None
  }

  /** The number of frames written once the item, arriving after k of them, has been answered. */
  function Answers(item: Item, k: nat): nat {
    if item.Ping? then k + 1 else k
  }

  lemma Whole(items: seq<Item>, kind: nat, sofar: Bytes, all: nat, rest: nat)
    requires |items| > 1 && items[|items| - 1].Part? && all >= rest
    ensures Reading(Message(kind, Extended(items[0], sofar) + Parts(items[1..])), rest, Pongs(items[1..]))
              .After(all - rest, if items[0].Ping? then Some(Reply(PONG, items[0].payload)) else None)
         == Reading(Message(kind, sofar + Parts(items)), all, Pongs(items))
  {
    ConcatAssociative(sofar, items[0].payload, Parts(items[1..]));
  }

  function Extended(item: Item, sofar: Bytes): Bytes {
    if item.Part? then sofar + item.payload else sofar
  }

  /** Reading from the first item on is reading that item, then reading from the second on. */
  lemma ReadItem(items: seq<Item>, kind: nat, max: int, fates: Fates, k: nat, started: bool, sofar: Bytes, tail: Bytes)
    requires Fragmented(items, kind, max, |sofar|)
    requires forall j :: fates(j)
    ensures var item := items[0];
            var all, later := Wire(items, started, kind), Wire(items[1..], started || item.Part?, kind);
            Collect(all + tail, max, fates, k, Started(started, kind), sofar) ==
            if |items| == 1 then Reading(Message(kind, sofar + item.payload), |all| - |later|, [])
            else Collect(later + tail, max, fates, Answers(item, k), Started(started || item.Part?, kind),
                         Extended(item, sofar))
                   .After(|all| - |later|, if item.Ping? then Some(Reply(PONG, item.payload)) else None)
  {
    var code := Encode(items[0].form, FrameOf(items[0], |items| == 1, started, kind), items[0].key);
    var later := Wire(items[1..], started || items[0].Part?, kind);
    FirstEncoded(items, kind, started, tail);
    var input := Wire(items, started, kind) + tail;
    OnEncoded(input, code, later + tail, items[0], |items| == 1, max, fates, k, started, kind, sofar);
  }

  lemma FirstEncoded(items: seq<Item>, kind: nat, started: bool, tail: Bytes)
    requires Sendable(items) && items != [] && kind < 16
    ensures var code := Encode(items[0].form, FrameOf(items[0], |items| == 1, started, kind), items[0].key);
            var later := Wire(items[1..], started || items[0].Part?, kind);
            && Wire(items, started, kind) + tail == code + (later + tail)
            && |Wire(items, started, kind)| == |code| + |later|
  {
    var code := Encode(items[0].form, FrameOf(items[0], |items| == 1, started, kind), items[0].key);
    ConcatAssociative(code, Wire(items[1..], started || items[0].Part?, kind), tail);
  }

  /** Reading one item from its encoding. */
  lemma OnEncoded(
      input: Bytes, code: Bytes, rest: Bytes, item: Item, last: bool, max: int, fates: Fates, k: nat,
      started: bool, kind: nat, payload: Bytes)
    requires (kind == TEXT || kind == BINARY) && fates(k) && (last ==> item.Part?) && item.form.Holds(|item.payload|)
    requires if item.Part? then |payload| + |item.payload| <= max else |item.payload| <= 125
    requires code == Encode(item.form, FrameOf(item, last, started, kind), item.key) && input == code + rest
    ensures Collect(input, max, fates, k, Started(started, kind), payload) ==
            if last then Reading(Message(kind, payload + item.payload), |code|, [])
            else Collect(rest, max, fates, Answers(item, k), Started(started || item.Part?, kind),
                         Extended(item, payload))
                   .After(|code|, if item.Ping? then Some(Reply(PONG, item.payload)) else None)
  {
    ReadBack(item.form, FrameOf(item, last, started, kind), item.key, rest, max - |payload|);
    OnItem(input, |code|, rest, item, last, max, fates, k, started, kind, payload);
  }

  /** Reading one item, when its frame is known to be what is read. */
  lemma OnItem(
      input: Bytes, size: nat, rest: Bytes, item: Item, last: bool, max: int, fates: Fates, k: nat, started: bool,
      kind: nat, payload: Bytes)
    requires Read(input, max - |payload|) == Ok(Parsed(FrameOf(item, last, started, kind), size))
    requires size <= |input| && rest == input[size..]
    requires (kind == TEXT || kind == BINARY) && fates(k) && (last ==> item.Part?)
    ensures Collect(input, max, fates, k, Started(started, kind), payload) ==
            if last then Reading(Message(kind, payload + item.payload), size, [])
            else Collect(rest, max, fates, Answers(item, k), Started(started || item.Part?, kind),
                         Extended(item, payload))
                   .After(size, if item.Ping? then Some(Reply(PONG, item.payload)) else None)
  {
  }

  lemma FirstItem(items: seq<Item>, kind: nat, max: int, sofar: nat)
    requires Fragmented(items, kind, max, sofar)
    ensures Parts(items) == if items[0].Part? then items[0].payload + Parts(items[1..]) else Parts(items[1..])
    ensures Pongs(items) ==
            if items[0].Ping? then [Reply(PONG, items[0].payload)] + Pongs(items[1..]) else Pongs(items[1..])
    ensures |items| == 1 ==> items[0].Part? && items[1..] == [] && Parts(items) == items[0].payload
    ensures |items| > 1 ==> Fragmented(items[1..], kind, max, sofar + if items[0].Part? then |items[0].payload| else 0)
  {
  }

  // ---------------------------------------------------------------- reading what was written

  /** A message written as one frame is read back whole, by any reader whose limit allows it. */
  lemma WrittenIsRead(kind: nat, payload: Bytes, key: Key, max: int, fates: Fates, tail: Bytes)
    requires (kind == TEXT || kind == BINARY) && |payload| <= MAX && |payload| <= max
    requires forall j :: fates(j)
    ensures var code := Written(kind, payload, key);
            Collect(code + tail, max, fates, 0, None, []) == Reading(Message(kind, payload), |code|, [])
  {
    var item := Part(FormFor(|payload|), Some(key), payload);
    assert [] + payload == payload;
    var code := Written(kind, payload, key);
    OnEncoded(code + tail, code, tail, item, true, max, fates, 0, false, kind, []);
  }

  function ClosePayload(code: nat, reason: Bytes): Bytes {
    (ToBig(code, 2) + reason)[..Min(125, 2 + |reason|)]
  }

  /** A close that was sent is read as its code and the first 123 bytes of its reason. */
  lemma CloseRoundTrip(code: nat, reason: Bytes, key: Key, max: int, fates: Fates, tail: Bytes)
    requires code < 0x1_0000
    ensures Collect(Written(CLOSE, ClosePayload(code, reason), key) + tail, max, fates, 0, None, []).outcome
         == Closed(code, reason[..Min(123, |reason|)])
  {
    var payload := ClosePayload(code, reason);
    CloseParsed(code, reason);
    ReadBack(FormFor(|payload|), Frame(true, CLOSE, payload), Some(key), tail, max);
  }

  lemma CloseParsed(code: nat, reason: Bytes)
    requires code < 0x1_0000
    ensures ParseClose(ClosePayload(code, reason)) == Closed(code, reason[..Min(123, |reason|)])
  {
    var head, cut := ToBig(code, 2), reason[..Min(123, |reason|)];
    assert ClosePayload(code, reason) == head + cut;
    assert (head + cut)[..2] == head && (head + cut)[2..] == cut;
    assert code < Pow2(8 * 2) by {
      Pow2Add(8, 8);
      Pow2Add(4, 4);
    }
    BigUndoesToBig(code, 2);
  }

  // ---------------------------------------------------------------- the connection

  /** The shortest length form, as the writer chooses it. */
  function FormFor(n: nat): Form {
    if n < 126 then Short else if n < 0x1_0000 then Medium else Long
  }

  function Written(opcode: nat, payload: Bytes, key: Key): Bytes
    requires opcode < 16 && |payload| <= MAX
  {
    Encode(FormFor(|payload|), Frame(true, opcode, payload), Some(key))
  }

  predicate Small(r: Reply) {
    r.opcode < 16 && |r.payload| <= 125
  }

  /** The bytes of consecutive control frames, the first of them being frame k. */
  function AllWritten(replies: seq<Reply>, keys: Keys, k: nat): Bytes
    requires forall i :: 0 <= i < |replies| ==> Small(replies[i])
  {
    if replies == [] then []
    else
      var n := |replies| - 1;
      assert Small(replies[n]);
      AllWritten(replies[..n], keys, k) + Written(replies[n].opcode, replies[n].payload, keys(k + n))
  }

  class Conn {
    const keys: Keys
    const fates: Fates
    var input: Bytes
    var output: Bytes
    var frames: nat
    var maxMessage: int
    var closed: bool

    constructor (keys: Keys, fates: Fates, input: Bytes)
      ensures this.keys == keys && this.fates == fates && this.input == input
      ensures output == [] && frames == 0 && maxMessage == 0x80_0000 && !closed
    {
      this.keys, this.fates, this.input := keys, fates, input;
      output, frames, maxMessage, closed := [], 0, 0x80_0000, false;
    }

    /** Ignores a limit that is not positive. */
    method SetMaxMessage(n: int64)
      modifies this`maxMessage
      ensures maxMessage == if n > 0 then n else old(maxMessage)
    {
      if n > 0 {
        maxMessage := n;
      }
    }

    /** Takes n bytes off the input, if there are that many. */
    method ReadFull(n: nat) returns (b: Bytes, ok: bool)
      modifies this`input
      ensures ok <==> n <= |old(input)|
      ensures ok ==> b == old(input)[..n] && input == old(input)[n..]
    {
      if n > |input| {
        return [], false;
      }
      b, input, ok := input[..n], input[n..], true;
    }

    /** Reads one frame, rejecting a faulty one before its payload is read. */
    method ReadFrame(maxData: int) returns (r: Result<Frame, Fault>)
      modifies this`input
      ensures match Read(old(input), maxData)
              case Ok(p) => r == Ok(p.frame) && input == old(input)[p.size..]
              case Err(e) => r == Err(e)
    {
      var head, ok := ReadFull(2);
      if !ok {
        return Err(Truncated);
      }
      var fin := head[0] >= 128;
      if head[0] / 16 % 8 != 0 {
        return Err(ReservedBits);
      }
      var opcode, masked := head[0] % 16, head[1] >= 128;
      var length;
      length, ok := ReadLength(head, old(input));
      if !ok {
        return Err(Truncated);
      }
      var fault := Check(fin, opcode, length, maxData);
      if fault.Some? {
        return Err(fault.value);
      }
      var payload := ReadPayload(masked, length);
      if payload.Err? {
        return Err(payload.error);
      }
      return Ok(Frame(fin, opcode, payload.value));
    }

    /** Reads the extended length, if the first two bytes announce one. */
    method ReadLength(head: Bytes, ghost all: Bytes) returns (length: int64, ok: bool)
      requires |all| >= 2 && head == all[..2] && input == all[2..]
      modifies this`input
      ensures ok <==> LengthOf(all).Some?
      ensures ok ==> var (n, size) := LengthOf(all).value; n == length && size <= |all| && input == all[size..]
    {
      var code := head[1] % 128;
      if code < 126 {
        return code, true;
      }
      var k := if code == 126 then 2 else 8;
      var extra;
      extra, ok := ReadFull(k);
      if ok {
        assert extra == all[2..2 + k] && input == all[2 + k..];
      }
      length := Wrap(Big(extra));
    }

    /** Reads the masking key, if any, and the payload. */
    method ReadPayload(masked: bool, length: int64) returns (r: Result<Bytes, Fault>)
      modifies this`input
      ensures r == Body(old(input), masked, length)
      ensures r.Ok? ==> length >= 0 && input == old(input)[(if masked then 4 else 0) + length..]
    {
      ghost var all, skip := input, if masked then 4 else 0;
      var key: Key, ok := [0, 0, 0, 0], true;
      if masked {
        key, ok := ReadKey();
        if !ok {
          return Err(Truncated);
        }
      }
      if length < 0 {
        return Err(BadLength);
      }
      var payload;
      payload, ok := ReadFull(length);
      if !ok {
        return Err(Truncated);
      }
      assert payload == all[skip..skip + length] && input == all[skip + length..];
      return Ok(if masked then Masked(payload, key) else payload);
    }

    method ReadKey() returns (key: Key, ok: bool)
      modifies this`input
      ensures ok <==> 4 <= |old(input)|
      ensures ok ==> key == old(input)[..4] && input == old(input)[4..]
    {
      var b;
      b, ok := ReadFull(4);
      key := if ok then b else [0, 0, 0, 0];
    }

    /** Masks into a new buffer, byte by byte. */
    method MaskCopy(payload: Bytes, key: Key) returns (masked: Bytes)
      ensures masked == Masked(payload, key)
    {
      var buffer := new byte[|payload|];
      for i := 0 to |payload|
        invariant forall j :: 0 <= j < i ==> buffer[j] == Masked(payload, key)[j]
      {
        buffer[i] := XorByte(payload[i], key[i % 4]);
      }
      return buffer[..];
    }

    /** Writes one whole masked frame, in the shortest length form; a failed write may leave a part of it. */
    method WriteFrame(opcode: nat, payload: Bytes) returns (ok: bool)
      requires opcode < 16 && |payload| <= MAX
      modifies this`output, this`frames
      ensures ok == fates(old(frames)) && frames == old(frames) + 1
      ensures ok ==> output == old(output) + Written(opcode, payload, keys(old(frames)))
    {
      var n := |payload|;
      var head: Bytes := [128 + opcode];
      if n < 126 {
        head := head + [128 + n];
      } else if n < 0x1_0000 {
        head := head + [128 + 126] + ToBig(n, 2);
      } else {
        head := head + [128 + 127] + ToBig(n, 8);
      }
      assert head == Head(FormFor(n), true, opcode, true, n);
      var key := keys(frames);
      var masked := MaskCopy(payload, key);
      ok := fates(frames);
      frames := frames + 1;
      if ok {
        output := output + (head + (key + masked));
      }
    }

    /** Writes a control frame, cutting its payload at 125 bytes. */
    method WriteControl(opcode: nat, payload: Bytes) returns (ok: bool)
      requires ControlOp(opcode) && opcode < 16
      modifies this`output, this`frames
      ensures ok == fates(old(frames)) && frames == old(frames) + 1
      ensures ok ==> output == old(output) + Written(opcode, payload[..Min(125, |payload|)], keys(old(frames)))
    {
      var cut := payload;
      if |cut| > 125 {
        cut := cut[..125];
      }
      assert cut == payload[..Min(125, |payload|)];
      ok := WriteFrame(opcode, cut);
    }

    /** Writes a text (1) or binary (2) message as one frame; any other type is refused and writes nothing. */
    method WriteMessage(messageType: int, data: Bytes) returns (ok: bool)
      requires |data| <= MAX
      modifies this`output, this`frames
      ensures messageType != TEXT && messageType != BINARY ==> !ok && output == old(output) && frames == old(frames)
      ensures messageType == TEXT || messageType == BINARY ==> ok == fates(old(frames)) && frames == old(frames) + 1
      ensures ok ==> output == old(output) + Written(messageType, data, keys(old(frames)))
    {
      if messageType != TEXT && messageType != BINARY {
        return false;
      }
      ok := WriteFrame(messageType, data);
    }

    /**
     * Close: the first call sends the status code, as 16 bits, and the reason, cut to what a
     * control frame holds, and closes the connection whether or not that could be written. Later
     * calls do nothing.
     */
    method Close(code: int, reason: Bytes)
      modifies this`output, this`frames, this`closed
      ensures closed
      ensures old(closed) ==> output == old(output) && frames == old(frames)
      ensures !old(closed) ==> frames == old(frames) + 1
      ensures !old(closed) && fates(old(frames)) ==>
        output == old(output) + Written(CLOSE, ClosePayload(code % 0x1_0000, reason), keys(old(frames)))
    {
      if closed {
        return;
      }
      var _ := WriteControl(CLOSE, ToBig(code % 0x1_0000, 2) + reason);
      closed := true;
    }

    /**
     * One pass of the read loop: reads a frame and acts on it. None asks for another pass with
     * the new kind and payload; size and reply say what was read and successfully answered.
     */
    method Step(started: Option<nat>, payload: Bytes)
      returns (
        outcome: Option<Outcome>, kind: Option<nat>, collected: Bytes,
        ghost size: nat, ghost reply: Option<Reply>)
      modifies this`input, this`output, this`frames
      ensures var whole := Collect(old(input), maxMessage, fates, old(frames), started, payload);
              whole ==
              (if outcome.None? then Collect(input, maxMessage, fates, frames, kind, collected)
               else Reading(outcome.value, 0, [])).After(size, reply)
      ensures size <= |old(input)| && (outcome.None? ==> size > 0)
      ensures outcome.None? || outcome.value.Message? ==> input == old(input)[size..]
      ensures reply.Some? ==> Small(reply.value)
      ensures outcome.None? ==> frames == Answered(old(frames), reply)
      ensures frames == Answered(old(frames), reply) ==>
        output == Extra(old(output), reply, keys, old(frames))
    {
      kind, collected, size, reply := started, payload, 0, None;
      ghost var before := input;
      var r := ReadFrame(maxMessage - |payload|);
      if r.Err? {
        return Some(Broken(r.error)), kind, collected, size, reply;
      }
      var f := r.value;
      size := Read(before, maxMessage - |payload|).value.size;
      var _, _ := ReadOnlyEncodings(before, maxMessage - |payload|);
      if f.opcode == PING {
        var ok := WriteControl(PONG, f.payload);
        if !ok {
          return Some(WriteFailed), kind, collected, size, reply;
        }
        assert f.payload[..Min(125, |f.payload|)] == f.payload;
        return None, kind, collected, size, Some(Reply(PONG, f.payload));
      }
      if f.opcode == PONG {
        return None, kind, collected, size, reply;
      }
      if f.opcode == CLOSE {
        var ok := WriteControl(CLOSE, f.payload);
        assert f.payload[..Min(125, |f.payload|)] == f.payload;
        return Some(ParseClose(f.payload)), kind, collected, size, if ok then Some(Reply(CLOSE, f.payload)) else None;
      }
      if Refusal(f.opcode, started).Some? {
        return Refusal(f.opcode, started), kind, collected, size, reply;
      }
      if started.None? {
        kind := Some(f.opcode);
      }
      collected := payload + f.payload;
      return if f.fin then Some(Message(kind.value, collected)) else None, kind, collected, size, reply;
    }

    /**
     * Reads the next message. If no write failed, what was written is one pong for each ping
     * read, with its payload, and the echo of a close.
     */
    method ReadMessage() returns (outcome: Outcome, ghost reading: Reading)
      modifies this`input, this`output, this`frames
      ensures reading == Collect(old(input), maxMessage, fates, old(frames), None, [])
      ensures outcome == reading.outcome && reading.size <= |old(input)|
      ensures outcome.Message? ==> input == old(input)[reading.size..]
      ensures forall i :: 0 <= i < |reading.replies| ==> Small(reading.replies[i])
      ensures frames == old(frames) + |reading.replies| ==>
        output == old(output) + AllWritten(reading.replies, keys, old(frames))
    {
      reading := Collect(input, maxMessage, fates, frames, None, []);
      ghost var origin := Origin(input, keys, frames, output, reading);
      ghost var size: nat, replies: seq<Reply> := 0, [];
      var kind: Option<nat>, payload: Bytes := None, [];
      while true
        invariant origin.Going(input, output, frames, Collect(input, maxMessage, fates, frames, kind, payload),
          size, replies)
        decreases |input|
      {
        var next;
        next, kind, payload, size, replies := Pass(origin, kind, payload, size, replies);
        if next.Some? {
          return next.value, reading;
        }
      }
    }

    /** Step, with its effect on the reading as a whole. */
    method Pass(
        ghost origin: Origin, started: Option<nat>, payload: Bytes, ghost before: nat, ghost answered: seq<Reply>)
      returns (
        outcome: Option<Outcome>, kind: Option<nat>, collected: Bytes,
        ghost size: nat, ghost replies: seq<Reply>)
      requires origin.keys == keys
      requires origin.Going(input, output, frames, Collect(input, maxMessage, fates, frames, started, payload),
        before, answered)
      modifies this`input, this`output, this`frames
      ensures outcome.None? ==>
        origin.Going(input, output, frames, Collect(input, maxMessage, fates, frames, kind, collected), size, replies)
      ensures outcome.None? ==> |input| < |old(input)|
      ensures outcome.Some? ==> origin.Over(outcome.value, input, output, frames)
    {
      ghost var more, reply;
      outcome, kind, collected, more, reply := Step(started, payload);
      size, replies := before + more, More(answered, reply);
      if outcome.None? {
        ghost var rest := Collect(input, maxMessage, fates, frames, kind, collected);
        origin.GoOn(old(input), old(output), old(frames), before, answered, more, reply, rest);
      } else {
        origin.Finish(old(input), old(output), old(frames), before, answered, more, reply, outcome.value, output,
          frames);
      }
    }
  }

  /** The state in which a message starts being read, and what reading it comes to. */
  datatype Origin = Origin(input: Bytes, keys: Keys, frames: nat, output: Bytes, whole: Reading) {
    ghost predicate Going(input': Bytes, output': Bytes, frames': nat, rest: Reading, size: nat, replies: seq<Reply>) {
      && size <= |input| && input' == input[size..] && frames' == frames + |replies|
      && (forall i :: 0 <= i < |replies| ==> Small(replies[i]))
      && whole == rest.Onto(size, replies)
      && output' == output + AllWritten(replies, keys, frames)
    }

    ghost predicate Over(outcome: Outcome, input': Bytes, output': Bytes, frames': nat) {
      && outcome == whole.outcome && whole.size <= |input| && (outcome.Message? ==> input' == input[whole.size..])
      && (forall i :: 0 <= i < |whole.replies| ==> Small(whole.replies[i]))
      && (frames' == frames + |whole.replies| ==> output' == output + AllWritten(whole.replies, keys, frames))
    }

    /** A frame was read, and reading goes on. */
    lemma GoOn(
        input1: Bytes, output1: Bytes, frames1: nat, size: nat, replies: seq<Reply>, more: nat,
        reply: Option<Reply>, rest: Reading)
      requires Going(input1, output1, frames1, rest.After(more, reply), size, replies)
      requires more <= |input1| && (reply.Some? ==> Small(reply.value))
      ensures Going(
        input1[more..], Extra(output1, reply, keys, frames1), Answered(frames1, reply), rest,
        size + more, More(replies, reply))
    {
      AnswerMore(replies, reply, keys, frames, output);
      Skip(input, size, more);
      OntoMore(rest, more, reply, size, replies);
    }

    /** The last frame was read, and perhaps answered. */
    lemma Finish(
        input1: Bytes, output1: Bytes, frames1: nat, size: nat, replies: seq<Reply>, more: nat,
        reply: Option<Reply>, outcome: Outcome, output2: Bytes, frames2: nat)
      requires Going(input1, output1, frames1, Reading(outcome, 0, []).After(more, reply), size, replies)
      requires more <= |input1| && (reply.Some? ==> Small(reply.value))
      requires frames2 == Answered(frames1, reply) ==> output2 == Extra(output1, reply, keys, frames1)
      ensures Over(outcome, input1[more..], output2, frames2)
    {
      GoOn(input1, output1, frames1, size, replies, more, reply, Reading(outcome, 0, []));
      OntoNothing(outcome, size + more, More(replies, reply));
      IsOver(outcome, input1[more..], output2, frames2, size + more, More(replies, reply));
    }

    lemma IsOver(outcome: Outcome, input': Bytes, output': Bytes, frames': nat, size: nat, replies: seq<Reply>)
      requires whole == Reading(outcome, size, replies) && size <= |input| && input' == input[size..]
      requires forall i :: 0 <= i < |replies| ==> Small(replies[i])
      requires frames' == frames + |replies| ==> output' == output + AllWritten(replies, keys, frames)
      ensures Over(outcome, input', output', frames')
    {
    }
  }

  function More(replies: seq<Reply>, reply: Option<Reply>): seq<Reply> {
    if reply.Some? then replies + [reply.value] else replies
  }

  /** The output once a reply, if any, has been written as frame k. */
  function Extra(output: Bytes, reply: Option<Reply>, keys: Keys, k: nat): Bytes
    requires reply.Some? ==> Small(reply.value)
  {
    if reply.Some? then output + Written(reply.value.opcode, reply.value.payload, keys(k)) else output
  }

  lemma Skip(input: Bytes, size: nat, more: nat)
    requires size + more <= |input|
    ensures input[size..][more..] == input[size + more..]
  {
  }

  lemma AnswerMore(replies: seq<Reply>, reply: Option<Reply>, keys: Keys, k: nat, before: Bytes)
    requires forall i :: 0 <= i < |replies| ==> Small(replies[i])
    requires reply.Some? ==> Small(reply.value)
    ensures forall i :: 0 <= i < |More(replies, reply)| ==> Small(More(replies, reply)[i])
    ensures before + AllWritten(More(replies, reply), keys, k)
      == Extra(before + AllWritten(replies, keys, k), reply, keys, k + |replies|)
  {
    if reply.Some? {
      var all := replies + [reply.value];
      assert all[..|replies|] == replies;
      ConcatAssociative(before, AllWritten(replies, keys, k),
        Written(reply.value.opcode, reply.value.payload, keys(k + |replies|)));
    }
  }

  lemma OntoNothing(outcome: Outcome, size: nat, replies: seq<Reply>)
    ensures Reading(outcome, 0, []).Onto(size, replies) == Reading(outcome, size, replies)
  {
    assert replies + [] == replies;
  }

  lemma OntoMore(rest: Reading, more: nat, reply: Option<Reply>, size: nat, replies: seq<Reply>)
    ensures rest.After(more, reply).Onto(size, replies) == rest.Onto(size + more, More(replies, reply))
  {
    if reply.Some? {
      ConcatAssociative(replies, [reply.value], rest.replies);
    }
  }

  /** The number of frames written once a reply, if any, has been. */
  function Answered(frames: nat, reply: Option<Reply>): nat {
    if reply.Some? then frames + 1 else frames
  }
}
