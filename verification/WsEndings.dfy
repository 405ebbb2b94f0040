/** How reading a message ends otherwise than with the message, and what the frames look like to the byte. */
module WsEndings {
  import opened Base
  import opened Int64
  import opened WsConn
  import opened WsFrame

  // ---------------------------------------------------------------- a message under way

  /** The items as frames of a message that does not end with them. */
  function OpenWire(items: seq<Item>, started: bool, kind: nat): Bytes
    requires Sendable(items) && kind < 16
  {
    if items == [] then []
    else
      var item := items[0];
      Encode(item.form, FrameOf(item, false, started, kind), item.key)
        + OpenWire(items[1..], started || item.Part?, kind)
  }

  predicate AnyPart(items: seq<Item>) {
    items != [] && (items[0].Part? || AnyPart(items[1..]))
  }

  /** The next n frames written from frame k on go through. */
  ghost predicate CanAnswer(fates: Fates, k: nat, n: nat) {
    forall j: nat :: k <= j < k + n ==> fates(j)
  }

  /** Reading on from there gives that. */
  ghost predicate Yields(
      input: Bytes, max: int, fates: Fates, k: nat, started: bool, kind: nat, payload: Bytes, r: Reading)
  {
    Collect(input, max, fates, k, Started(started, kind), payload) == r
  }

  /** Reading the items leaves the message under way: every ping has been answered, every part collected. */
  lemma {:induction false} UnderWay(
      items: seq<Item>, kind: nat, max: int, fates: Fates, k: nat, started: bool, sofar: Bytes, rest: Bytes, r: Reading)
    requires Sendable(items) && (kind == TEXT || kind == BINARY) && |sofar| + |Parts(items)| <= max
    requires CanAnswer(fates, k, |Pongs(items)|)
    requires Yields(rest, max, fates, k + |Pongs(items)|, started || AnyPart(items), kind, sofar + Parts(items), r)
    ensures Yields(OpenWire(items, started, kind) + rest, max, fates, k, started, kind, sofar,
                   r.Onto(|OpenWire(items, started, kind)|, Pongs(items)))
    decreases |items|
  {
    if items == [] {
      NothingUnderWay(kind, sofar, started, rest, r);
    } else {
      var item := items[0];
      LaterUnderWay(items, kind, max, fates, k, started, sofar, rest, r);
      UnderWay(items[1..], kind, max, fates, Answers(item, k), started || item.Part?, Extended(item, sofar), rest, r);
      FirstUnderWay(items, kind, max, fates, k, started, sofar, rest, r);
    }
  }

  lemma {:induction false} NothingUnderWay(kind: nat, sofar: Bytes, started: bool, rest: Bytes, r: Reading)
    requires kind < 16
    ensures OpenWire([], started, kind) + rest == rest && sofar + Parts([]) == sofar && !AnyPart([])
    ensures r.Onto(|OpenWire([], started, kind)|, Pongs([])) == r
  {
    assert [] + r.replies == r.replies;
  }

  lemma {:induction false} AnswerFirst(items: seq<Item>, fates: Fates, k: nat)
    requires items != [] && CanAnswer(fates, k, |Pongs(items)|)
    ensures items[0].Ping? ==> fates(k)
    ensures CanAnswer(fates, Answers(items[0], k), |Pongs(items[1..])|)
  {
  }

  /** What holds before the first item holds before the second, once the first has been read. */
  lemma {:induction false} LaterUnderWay(
      items: seq<Item>, kind: nat, max: int, fates: Fates, k: nat, started: bool, sofar: Bytes, rest: Bytes, r: Reading)
    requires items != [] && Sendable(items) && |sofar| + |Parts(items)| <= max && CanAnswer(fates, k, |Pongs(items)|)
    requires Yields(rest, max, fates, k + |Pongs(items)|, started || AnyPart(items), kind, sofar + Parts(items), r)
    ensures Sendable(items[1..]) && (items[0].Ping? ==> fates(k))
    ensures var item, later := items[0], items[1..];
            && |Extended(item, sofar)| + |Parts(later)| <= max
            && CanAnswer(fates, Answers(item, k), |Pongs(later)|)
            && Yields(rest, max, fates, Answers(item, k) + |Pongs(later)|, (started || item.Part?) || AnyPart(later),
                      kind, Extended(item, sofar) + Parts(later), r)
  {
    PartsFirst(items, sofar);
    AnswerFirst(items, fates, k);
  }

  lemma {:induction false} FirstUnderWay(
      items: seq<Item>, kind: nat, max: int, fates: Fates, k: nat, started: bool, sofar: Bytes, rest: Bytes, r: Reading)
    requires Sendable(items) && items != [] && Sendable(items[1..]) && (kind == TEXT || kind == BINARY)
    requires |sofar| + |Parts(items)| <= max && (items[0].Ping? ==> fates(k))
    requires var item, later := items[0], OpenWire(items[1..], started || items[0].Part?, kind);
             Yields(later + rest, max, fates, Answers(item, k), started || item.Part?, kind, Extended(item, sofar),
                    r.Onto(|later|, Pongs(items[1..])))
    ensures Yields(OpenWire(items, started, kind) + rest, max, fates, k, started, kind, sofar,
                   r.Onto(|OpenWire(items, started, kind)|, Pongs(items)))
  {
    var item := items[0];
    var code := Encode(item.form, FrameOf(item, false, started, kind), item.key);
    var more := OpenWire(items[1..], started || item.Part?, kind);
    PartsFirst(items, sofar);
    ItemYields(item, more + rest, max, fates, k, started, kind, sofar, r.Onto(|more|, Pongs(items[1..])));
    ConcatAssociative(code, more, rest);
    OneMoreAnswer(r, |code|, if item.Ping? then Some(Reply(PONG, item.payload)) else None, |more|, Pongs(items[1..]));
  }

  lemma {:induction false} ItemYields(
      item: Item, rest: Bytes, max: int, fates: Fates, k: nat, started: bool, kind: nat, payload: Bytes, r: Reading)
    requires (kind == TEXT || kind == BINARY) && (item.Ping? ==> fates(k)) && item.form.Holds(|item.payload|)
    requires if item.Part? then |payload| + |item.payload| <= max else |item.payload| <= 125
    requires Yields(rest, max, fates, Answers(item, k), started || item.Part?, kind, Extended(item, payload), r)
    ensures var code := Encode(item.form, FrameOf(item, false, started, kind), item.key);
            Yields(code + rest, max, fates, k, started, kind, payload,
                   r.After(|code|, if item.Ping? then Some(Reply(PONG, item.payload)) else None))
  {
    var code := Encode(item.form, FrameOf(item, false, started, kind), item.key);
    ReadBack(item.form, FrameOf(item, false, started, kind), item.key, rest, max - |payload|);
  }

  lemma {:induction false} PartsFirst(items: seq<Item>, sofar: Bytes)
    requires items != [] && Sendable(items)
    ensures Sendable(items[1..])
    ensures |Parts(items)| == (if items[0].Part? then |items[0].payload| else 0) + |Parts(items[1..])|
    ensures sofar + Parts(items) == Extended(items[0], sofar) + Parts(items[1..])
    ensures |Pongs(items)| == (if items[0].Ping? then 1 else 0) + |Pongs(items[1..])|
    ensures AnyPart(items) <==> items[0].Part? || AnyPart(items[1..])
  {
    var later := items[1..];
    ConcatAssociative(sofar, items[0].payload, Parts(later));
  }

  lemma {:induction false} OneMoreAnswer(r: Reading, n: nat, reply: Option<Reply>, size: nat, replies: seq<Reply>)
    ensures r.Onto(size, replies).After(n, reply)
         == r.Onto(n + size, if reply.Some? then [reply.value] + replies else replies)
  {
    if reply.Some? {
      ConcatAssociative([reply.value], replies, r.replies);
    }
  }

  // ---------------------------------------------------------------- the frames that end it

  /** What a frame ends the reading with, if it does, by its opcode; 8 is close, 9 a ping that cannot be answered. */
  function EndOf(f: Frame, started: bool, canWrite: bool): Option<Outcome> {
    if f.opcode == 8 then
      Some(if |f.payload| < 2 then Closed(1005, [])
        else Closed(256 * f.payload[0] as nat + f.payload[1], f.payload[2..]))
    else if f.opcode == 9 then
      if canWrite then None else Some(WriteFailed)
    else if (f.opcode == 1 || f.opcode == 2) && started then Some(NewDataMidMessage)
    else if f.opcode == 0 && !started then Some(ContinuationWithoutStart)
    else if 3 <= f.opcode < 8 || 11 <= f.opcode then Some(UnknownOpcode(f.opcode))
    else None
  }

  /** The reading that ends with such a frame of the given size: a close is answered with its own payload. */
  function Ended(f: Frame, started: bool, canWrite: bool, size: nat): Reading
    requires EndOf(f, started, canWrite).Some?
  {
    Reading(EndOf(f, started, canWrite).value, size, if f.opcode == 8 && canWrite then [Reply(8, f.payload)] else [])
  }

  lemma {:induction false} BigOfTwo(b: Bytes)
    requires |b| == 2
    ensures Big(b) == 256 * b[0] as nat + b[1]
  {
    assert b[..1][..0] == [] && b[..1][0] == b[0];
    assert Big(b[..1]) == b[0];
  }

  lemma {:induction false} OneFrame(
      form: Form, f: Frame, key: Option<Key>, tail: Bytes, max: int, fates: Fates, k: nat, started: bool, kind: nat,
      sofar: Bytes)
    requires f.opcode < 16 && form.Holds(|f.payload|) && Acceptable(f, max - |sofar|)
    requires EndOf(f, started, fates(k)).Some?
    ensures Yields(Encode(form, f, key) + tail, max, fates, k, started, kind, sofar,
                   Ended(f, started, fates(k), |Encode(form, f, key)|))
  {
    ReadBack(form, f, key, tail, max - |sofar|);
    FrameRead(Encode(form, f, key) + tail, f, |Encode(form, f, key)|, max, fates, k, started, kind, sofar);
  }

  lemma {:induction false} FrameRead(
      input: Bytes, f: Frame, size: nat, max: int, fates: Fates, k: nat, started: bool, kind: nat, sofar: Bytes)
    requires Read(input, max - |sofar|) == Ok(Parsed(f, size)) && EndOf(f, started, fates(k)).Some?
    ensures Yields(input, max, fates, k, started, kind, sofar, Ended(f, started, fates(k), size))
  {
    if |f.payload| >= 2 {
      BigOfTwo(f.payload[..2]);
    }
  }

  /**
   * After any pings, pongs and parts, a close is echoed and reported with its code, 1005 when it
   * has none; a new message, a continuation of none and an unknown opcode are refused; and a
   * ping that cannot be answered ends the reading.
   */
  lemma {:induction false} EndsWith(
      items: seq<Item>, kind: nat, max: int, fates: Fates, k: nat, started: bool, sofar: Bytes,
      form: Form, f: Frame, key: Option<Key>, tail: Bytes)
    requires Sendable(items) && (kind == TEXT || kind == BINARY) && |sofar| + |Parts(items)| <= max
    requires CanAnswer(fates, k, |Pongs(items)|)
    requires f.opcode < 16 && form.Holds(|f.payload|) && Acceptable(f, max - |sofar| - |Parts(items)|)
    requires EndOf(f, started || AnyPart(items), fates(k + |Pongs(items)|)).Some?
    ensures var before, code, canWrite := OpenWire(items, started, kind), Encode(form, f, key),
      fates(k + |Pongs(items)|);
            Yields(before + (code + tail), max, fates, k, started, kind, sofar,
                   Ended(f, started || AnyPart(items), canWrite, |code|).Onto(|before|, Pongs(items)))
  {
    var n, now := k + |Pongs(items)|, started || AnyPart(items);
    var r := Ended(f, now, fates(n), |Encode(form, f, key)|);
    OneFrame(form, f, key, tail, max, fates, n, now, kind, sofar + Parts(items));
    UnderWay(items, kind, max, fates, k, started, sofar, Encode(form, f, key) + tail, r);
  }

  /** After any pings, pongs and parts, a frame that cannot be read ends the reading with its fault. */
  lemma {:induction false} BreaksWith(
      items: seq<Item>, kind: nat, max: int, fates: Fates, k: nat, started: bool, sofar: Bytes, rest: Bytes, e: Fault)
    requires Sendable(items) && (kind == TEXT || kind == BINARY) && |sofar| + |Parts(items)| <= max
    requires CanAnswer(fates, k, |Pongs(items)|)
    requires Read(rest, max - |sofar| - |Parts(items)|) == Err(e)
    ensures Yields(OpenWire(items, started, kind) + rest, max, fates, k, started, kind, sofar,
                   Reading(Broken(e), |OpenWire(items, started, kind)|, Pongs(items)))
  {
    UnderWay(items, kind, max, fates, k, started, sofar, rest, Reading(Broken(e), 0, []));
    assert Pongs(items) + [] == Pongs(items);
  }

  // ---------------------------------------------------------------- frames that cannot be read

  /** Every frame that may be encoded but not accepted is rejected for what is wrong with it. */
  lemma {:induction false} Rejected(form: Form, f: Frame, key: Option<Key>, tail: Bytes, maxData: int)
    requires f.opcode < 16 && form.Holds(|f.payload|) && !Acceptable(f, maxData)
    ensures Read(Encode(form, f, key) + tail, maxData) == Err(
      if f.opcode < 8 then OverBudget else if !f.fin then FragmentedControl else LongControl)
  {
    var n := |f.payload|;
    var head := Head(form, f.fin, f.opcode, key.Some?, n);
    var data := if key.Some? then key.value + Masked(f.payload, key.value) else f.payload;
    ConcatAssociative(head, data, tail);
    HeadRead(form, f.fin, f.opcode, key.Some?, n, data + tail);
  }

  /** A frame with any of its three reserved bits set is rejected, and one that is cut short is not read. */
  lemma {:induction false} NotRead(input: Bytes, maxData: int)
    ensures |input| < 2 ==> Read(input, maxData) == Err(Truncated)
    ensures |input| >= 2 && input[0] / 16 % 8 != 0 ==> Read(input, maxData) == Err(ReservedBits)
  {
  }

  lemma {:induction false} CutShort(form: Form, f: Frame, key: Option<Key>, cut: nat, maxData: int)
    requires f.opcode < 16 && form.Holds(|f.payload|) && Acceptable(f, maxData)
    requires cut < |Encode(form, f, key)|
    ensures Read(Encode(form, f, key)[..cut], maxData) == Err(Truncated)
  {
    var all, input := Encode(form, f, key), Encode(form, f, key)[..cut];
    var head := Head(form, f.fin, f.opcode, key.Some?, |f.payload|);
    HeadRead(form, f.fin, f.opcode, key.Some?, |f.payload|, []);
    assert head + [] == head;
    if cut >= |head| {
      var left := input[|head|..];
      assert input == head + left;
      HeadRead(form, f.fin, f.opcode, key.Some?, |f.payload|, left);
    } else if cut >= 2 {
      assert input[0] == head[0] && input[1] == head[1];
    }
  }

  // ---------------------------------------------------------------- to the byte

  /** Where each part of a frame stands: flags and opcode, length, masking key, payload. */
  lemma {:induction false} Layout(form: Form, f: Frame, key: Option<Key>)
    requires f.opcode < 16 && form.Holds(|f.payload|)
    ensures var b, n, extra := Encode(form, f, key), |f.payload|, form.Extra();
            var start := 2 + extra + if key.Some? then 4 else 0;
            && |b| == start + n
            && b[0] == (if f.fin then 128 else 0) + f.opcode
            && b[1] == (if key.Some? then 128 else 0) + (if extra == 0 then n else if extra == 2 then 126 else 127)
            && (extra > 0 ==> Big(b[2..2 + extra]) == n)
            && (key.Some? ==> b[2 + extra..start] == key.value)
            && forall i :: 0 <= i < n ==>
                 b[start + i] == if key.Some? then XorByte(f.payload[i], key.value[i % 4]) else f.payload[i]
  {
    var head := Head(form, f.fin, f.opcode, key.Some?, |f.payload|);
    var data := if key.Some? then key.value + Masked(f.payload, key.value) else f.payload;
    var b := Encode(form, f, key);
    assert b == head + data;
    assert b[2..2 + form.Extra()] == ToBig(|f.payload|, form.Extra());
    if form != Short {
      FormFits(form, |f.payload|);
      BigUndoesToBig(|f.payload|, form.Extra());
    }
    if key.Some? {
      assert b[|head|..|head| + 4] == key.value;
    }
  }

  /** The first digit weighs most. */
  lemma {:induction false} BigFirst(b: Bytes)
    requires b != []
    ensures Big(b) == b[0] * Pow2(8 * (|b| - 1)) + Big(b[1..])
  {
    if |b| == 1 {
      assert b[..0] == [] && Pow2(0) == 1;
    } else {
      var init := b[..|b| - 1];
      BigFirst(init);
      assert b[1..][..|b| - 2] == init[1..];
      PowerOfBytes(|b| - 1);
      Scale(b[0], Pow2(8 * (|b| - 2)), Pow2(8 * (|b| - 1)));
    }
  }

  function BitOf(n: nat, i: nat): nat {
    if i == 0 then n % 2 else BitOf(n / 2, i - 1)
  }

  /** A bit of the exclusive or is set exactly if that bit differs. */
  lemma {:induction false} XorBit(a: nat, b: nat, i: nat)
    ensures BitOf(Xor(a, b), i) == if BitOf(a, i) == BitOf(b, i) then 0 else 1
    decreases i
  {
    Halves(Xor(a / 2, b / 2), a, b, Xor(a, b));
    XorUnfold(a, b);
    if i > 0 {
      XorBit(a / 2, b / 2, i - 1);
    }
  }

  /** The writer's length form is the shortest that holds the length. */
  lemma {:induction false} FormForIsShortest(n: nat, form: Form)
    requires form.Holds(n)
    ensures FormFor(n).Holds(n) && FormFor(n).Extra() <= form.Extra()
  {
  }
}
