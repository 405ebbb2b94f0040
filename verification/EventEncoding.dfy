/** An encoder of event streams, and what the parser makes of its output. */
module EventEncoding {
  import opened Base
  import opened EventStream

  /** One line of an event; cr says whether it ends in CR LF rather than LF. */
  datatype Item =
    | Data(chunk: Bytes, spaced: bool, cr: bool)
    | Other(line: Bytes, cr: bool)
  {
    /** The line without its LF. */
    function Content(): Bytes {
      (if Other? then line else DATA + (if spaced then [SPACE] else []) + chunk) + (if cr then [CR] else [])
    }

    /** The line as the scanner is meant to return it. */
    function Line(): Bytes {
      if Other? then line else DATA + (if spaced then [SPACE] else []) + chunk
    }

    /** The payload bytes the line carries. */
    function Carried(): Bytes {
      if Data? then chunk else []
    }

    /**
     * No line contains LF or fills the scanner's buffer; one that ends in CR needs a CR of its
     * own before the LF; a chunk without the optional space does not start with one; other lines
     * are neither blank nor data.
     */
    predicate Valid() {
      && LF !in Line() && |Content()| < LIMIT
      && (cr || Line() == [] || Line()[|Line()| - 1] != CR)
      && (Data? && !spaced ==> chunk == [] || chunk[0] != SPACE)
      && (Other? ==> line != [] && !(DATA <= line))
    }
  }

  /** The lines of an event and the line ending of the blank line after them. */
  datatype Event = Event(items: seq<Item>, cr: bool) {
    predicate Valid() {
      forall k :: 0 <= k < |items| ==> items[k].Valid()
    }

    function Payload(): Bytes {
      PayloadOf(items)
    }
  }

  function PayloadOf(items: seq<Item>): Bytes {
    if items == [] then [] else items[0].Carried() + PayloadOf(items[1..])
  }

  function EncodeItems(items: seq<Item>): Bytes {
    if items == [] then [] else items[0].Content() + [LF] + EncodeItems(items[1..])
  }

  function Encode(events: seq<Event>): Bytes {
    if events == [] then []
    else EncodeItems(events[0].items) + (if events[0].cr then [CR, LF] else [LF]) + Encode(events[1..])
  }

  /** Lines of a final event that lacks its blank line, and possibly the LF of its last line. */
  function EncodeOpen(items: seq<Item>, cutLF: bool): Bytes {
    var b := EncodeItems(items);
    if cutLF && b != [] then b[..|b| - 1] else b
  }

  function Expected(events: seq<Event>): seq<Bytes> {
    if events == [] then [] else EventOf(events[0].Payload()) + Expected(events[1..])
  }

  // ---------------------------------------------------------------- lines

  lemma {:induction false} LineEndAt(content: Bytes, rest: Bytes)
    requires LF !in content
    requires rest != [] ==> rest[0] == LF
    ensures LineEnd(content + rest) == |content|
  {
    if content == [] {
      assert content + rest == rest;
    } else {
      assert (content + rest)[1..] == content[1..] + rest;
      LineEndAt(content[1..], rest);
    }
  }

  lemma FirstLine(content: Bytes, rest: Bytes)
    requires LF !in content && |content| < LIMIT
    ensures Lines(content + [LF] + rest) == [DropCR(content)] + Lines(rest)
  {
    var b := content + [LF] + rest;
    ConcatAssociative(content, [LF], rest);
    LineEndAt(content, [LF] + rest);
    assert b[..|content|] == content && b[|content| + 1..] == rest;
  }

  lemma LastLine(content: Bytes)
    requires LF !in content && 0 < |content| < LIMIT
    ensures Lines(content) == [DropCR(content)]
  {
    assert content + [] == content;
    LineEndAt(content, []);
    assert content[..|content|] == content;
  }

  lemma ItemLine(item: Item)
    requires item.Valid()
    ensures LF !in item.Content() && |item.Content()| < LIMIT && DropCR(item.Content()) == item.Line() != []
    ensures DataOf(item.Line()) == item.Carried()
  {
    assert item.cr ==> item.Content()[..|item.Content()| - 1] == item.Line();
    assert !item.cr ==> item.Content() == item.Line();
    if item.Data? {
      var tail := (if item.spaced then [SPACE] else []) + item.chunk;
      ConcatAssociative(DATA, if item.spaced then [SPACE] else [], item.chunk);
      assert item.Line() == DATA + tail;
      assert item.Line()[|DATA|..] == tail;
      assert item.spaced ==> tail[1..] == item.chunk;
      assert !item.spaced ==> tail == item.chunk;
    }
  }

  // ---------------------------------------------------------------- round trip

  /** The lines of an event only add to the data collected. */
  lemma {:induction false} ItemsCollect(items: seq<Item>, data: Bytes, rest: Bytes)
    requires forall k :: 0 <= k < |items| ==> items[k].Valid()
    ensures Remaining(data, Lines(EncodeItems(items) + rest)) == Remaining(data + PayloadOf(items), Lines(rest))
  {
    if items == [] {
      assert [] + rest == rest;
      assert data + [] == data;
    } else {
      var head, tail := items[0].Content(), EncodeItems(items[1..]);
      ItemLine(items[0]);
      assert head + [LF] + tail + rest == head + [LF] + (tail + rest);
      FirstLine(head, tail + rest);
      RemainingCons(data, items[0].Line(), Lines(tail + rest));
      ItemsCollect(items[1..], data + items[0].Carried(), rest);
      ConcatAssociative(data, items[0].Carried(), PayloadOf(items[1..]));
    }
  }

  lemma RemainingCons(data: Bytes, line: Bytes, lines: seq<Bytes>)
    requires line != []
    ensures Remaining(data, [line] + lines) == Remaining(data + DataOf(line), lines)
  {
    assert ([line] + lines)[1..] == lines;
  }

  lemma BlankEnds(data: Bytes, cr: bool, rest: Bytes)
    ensures Remaining(data, Lines((if cr then [CR, LF] else [LF]) + rest)) == EventOf(data) + Remaining([], Lines(rest))
  {
    var content := if cr then [CR] else [];
    FirstLine(content, rest);
    assert content + [LF] == if cr then [CR, LF] else [LF];
    assert DropCR(content) == [];
    assert ([[]] + Lines(rest))[1..] == Lines(rest);
  }

  lemma EncodeUnfold(events: seq<Event>, rest: Bytes)
    requires events != []
    ensures var e := events[0];
            Encode(events) + rest == EncodeItems(e.items)
              + ((if e.cr then [CR, LF] else [LF]) + (Encode(events[1..]) + rest))
  {
    var blank := if events[0].cr then [CR, LF] else [LF];
    ConcatAssociative(EncodeItems(events[0].items) + blank, Encode(events[1..]), rest);
    ConcatAssociative(EncodeItems(events[0].items), blank, Encode(events[1..]) + rest);
  }

  lemma {:induction false} EncodedEvents(events: seq<Event>, rest: Bytes)
    requires forall k :: 0 <= k < |events| ==> events[k].Valid()
    ensures Remaining([], Lines(Encode(events) + rest)) == Expected(events) + Remaining([], Lines(rest))
  {
    if events == [] {
      assert [] + rest == rest;
    } else {
      var e := events[0];
      var blank := if e.cr then [CR, LF] else [LF];
      var tail := Encode(events[1..]) + rest;
      EncodeUnfold(events, rest);
      ItemsCollect(e.items, [], blank + tail);
      assert [] + e.Payload() == e.Payload();
      BlankEnds(e.Payload(), e.cr, tail);
      EncodedEvents(events[1..], rest);
      ConcatAssociative(EventOf(e.Payload()), Expected(events[1..]), Remaining([], Lines(rest)));
    }
  }

  /** Losing the final LF does not lose the line. */
  lemma {:induction false} OpenLines(items: seq<Item>, cutLF: bool)
    requires forall k :: 0 <= k < |items| ==> items[k].Valid()
    ensures Lines(EncodeOpen(items, cutLF)) == Lines(EncodeItems(items))
  {
    if items != [] && cutLF {
      var head := items[0].Content();
      ItemLine(items[0]);
      FirstLine(head, EncodeItems(items[1..]));
      OpenUnfold(items);
      if |items| == 1 {
        LastLine(head);
      } else {
        FirstLine(head, EncodeOpen(items[1..], true));
        OpenLines(items[1..], true);
      }
    }
  }

  lemma OpenUnfold(items: seq<Item>)
    requires items != []
    ensures |items| == 1 ==> EncodeOpen(items, true) == items[0].Content() && EncodeItems(items[1..]) == []
    ensures |items| > 1 ==> EncodeOpen(items, true) == items[0].Content() + [LF] + EncodeOpen(items[1..], true)
  {
    var head, tail := items[0].Content(), EncodeItems(items[1..]);
    CutAt(head, tail);
    if |items| == 1 {
      assert items[1..] == [] && tail == [];
    } else {
      assert tail != [] by {
        assert tail == items[1].Content() + [LF] + EncodeItems(items[1..][1..]);
      }
    }
  }

  /** Where the last byte of an encoding is cut off. */
  lemma CutAt(head: Bytes, tail: Bytes)
    ensures var b := head + [LF] + tail;
            b[..|b| - 1] == if tail == [] then head else head + [LF] + tail[..|tail| - 1]
  {
  }

  /**
   * Parsing undoes encoding: every event gives the concatenation of its data chunks, whatever
   * other lines, optional spaces and line endings are mixed in. A final event is delivered even
   * without its blank line or its last LF, and an event without data is not delivered.
   */
  lemma ParseEncoded(events: seq<Event>, open: seq<Item>, cutLF: bool)
    requires forall k :: 0 <= k < |events| ==> events[k].Valid()
    requires forall k :: 0 <= k < |open| ==> open[k].Valid()
    ensures Parse(Encode(events) + EncodeOpen(open, cutLF)) == Expected(events) + EventOf(PayloadOf(open))
  {
    var rest := EncodeOpen(open, cutLF);
    RemainingIsParse(Encode(events) + rest);
    EncodedEvents(events, rest);
    OpenLines(open, cutLF);
    assert EncodeItems(open) + [] == EncodeItems(open);
    ItemsCollect(open, [], []);
    assert [] + PayloadOf(open) == PayloadOf(open);
  }

  /** What is left open at the end of an encoding: the payload of the lines after the last event. */
  lemma {:induction false} ItemsOpen(items: seq<Item>, data: Bytes, rest: Bytes)
    requires forall k :: 0 <= k < |items| ==> items[k].Valid()
    ensures OpenData(data, Lines(EncodeItems(items) + rest)) == OpenData(data + PayloadOf(items), Lines(rest))
  {
    if items == [] {
      assert [] + rest == rest && data + [] == data;
    } else {
      var head, tail := items[0].Content(), EncodeItems(items[1..]);
      ItemLine(items[0]);
      assert head + [LF] + tail + rest == head + [LF] + (tail + rest);
      FirstLine(head, tail + rest);
      assert ([items[0].Line()] + Lines(tail + rest))[1..] == Lines(tail + rest);
      ItemsOpen(items[1..], data + items[0].Carried(), rest);
      ConcatAssociative(data, items[0].Carried(), PayloadOf(items[1..]));
    }
  }

  lemma BlankCloses(data: Bytes, cr: bool, rest: Bytes)
    ensures OpenData(data, Lines((if cr then [CR, LF] else [LF]) + rest)) == OpenData([], Lines(rest))
  {
    var content := if cr then [CR] else [];
    FirstLine(content, rest);
    assert content + [LF] == if cr then [CR, LF] else [LF];
    assert DropCR(content) == [];
    assert ([[]] + Lines(rest))[1..] == Lines(rest);
  }

  lemma {:induction false} EventsOpen(events: seq<Event>, rest: Bytes)
    requires forall k :: 0 <= k < |events| ==> events[k].Valid()
    ensures OpenData([], Lines(Encode(events) + rest)) == OpenData([], Lines(rest))
  {
    if events == [] {
      assert [] + rest == rest;
    } else {
      var e := events[0];
      var blank := if e.cr then [CR, LF] else [LF];
      var tail := Encode(events[1..]) + rest;
      EncodeUnfold(events, rest);
      ItemsOpen(e.items, [], blank + tail);
      BlankCloses([] + e.Payload(), e.cr, tail);
      EventsOpen(events[1..], rest);
    }
  }

  /** The events that a blank line ends are those encoded with one. */
  lemma EncodedTerminated(events: seq<Event>, open: seq<Item>, cutLF: bool)
    requires forall k :: 0 <= k < |events| ==> events[k].Valid()
    requires forall k :: 0 <= k < |open| ==> open[k].Valid()
    ensures Terminated(Encode(events) + EncodeOpen(open, cutLF)) == |Expected(events)|
  {
    ParseEncoded(events, open, cutLF);
    EventsOpen(events, EncodeOpen(open, cutLF));
    OpenLines(open, cutLF);
    assert EncodeItems(open) + [] == EncodeItems(open);
    ItemsOpen(open, [], []);
    assert [] + PayloadOf(open) == PayloadOf(open);
  }

  /** One "data: " line and a blank line for each payload. */
  function Simple(payloads: seq<Bytes>): seq<Event> {
    if payloads == [] then [] else [Event([Data(payloads[0], true, false)], false)] + Simple(payloads[1..])
  }

  predicate Plain(payload: Bytes) {
    payload != [] && LF !in payload && CR !in payload
  }

  /** The payload's line, which starts with the six bytes of "data: ", does not fill a buffer of 1 MiB. */
  predicate Short(payload: Bytes) {
    |payload| + 6 < 1_048_576
  }

  /** The payloads before the first that is too long. */
  function UpToLong(payloads: seq<Bytes>): seq<Bytes> {
    if payloads == [] || !Short(payloads[0]) then [] else [payloads[0]] + UpToLong(payloads[1..])
  }

  lemma {:induction false} AllShortIff(payloads: seq<Bytes>)
    ensures |UpToLong(payloads)| <= |payloads|
    ensures UpToLong(payloads) == payloads <==> forall k :: 0 <= k < |payloads| ==> Short(payloads[k])
  {
    if payloads != [] {
      AllShortIff(payloads[1..]);
      assert payloads == [payloads[0]] + payloads[1..];
      assert forall k :: 0 < k < |payloads| ==> payloads[k] == payloads[1..][k - 1];
    }
  }

  /** A line that fills the buffer ends the scan. */
  lemma LongLine(payload: Bytes, rest: Bytes)
    requires Plain(payload) && !Short(payload)
    ensures Lines(Data(payload, true, false).Content() + [LF] + rest) == []
  {
    var content := Data(payload, true, false).Content();
    ConcatAssociative(content, [LF], rest);
    LineEndAt(content, [LF] + rest);
  }

  /** Parsing the simple encoding gives the payloads up to the first that is too long. */
  lemma {:induction false} SimpleParsed(payloads: seq<Bytes>)
    requires forall k :: 0 <= k < |payloads| ==> Plain(payloads[k])
    ensures Remaining([], Lines(Encode(Simple(payloads)))) == UpToLong(payloads)
  {
    if payloads != [] {
      var e, tail := Event([Data(payloads[0], true, false)], false), Encode(Simple(payloads[1..]));
      assert Simple(payloads)[1..] == Simple(payloads[1..]);
      assert Encode(Simple(payloads)) == EncodeItems(e.items) + [LF] + tail;
      assert e.items[1..] == [];
      var content := e.items[0].Content();
      assert EncodeItems(e.items) == content + [LF];
      if Short(payloads[0]) {
        SimpleParsed(payloads[1..]);
        assert e.items[0].Valid();
        ConcatAssociative(EncodeItems(e.items), [LF], tail);
        ItemsCollect(e.items, [], [LF] + tail);
        assert PayloadOf(e.items) == payloads[0] && [] + payloads[0] == payloads[0];
        BlankEnds(payloads[0], false, tail);
      } else {
        ConcatAssociative(content + [LF], [LF], tail);
        LongLine(payloads[0], [LF] + tail);
      }
    }
  }

  lemma LineTooLong(content: Bytes, rest: Bytes)
    requires LF !in content
    ensures TooLong(content + [LF] + rest) <==> |content| >= LIMIT || TooLong(rest)
  {
    ConcatAssociative(content, [LF], rest);
    LineEndAt(content, [LF] + rest);
    assert (content + [LF] + rest)[|content| + 1..] == rest;
  }

  predicate AnyLong(payloads: seq<Bytes>) {
    exists k :: 0 <= k < |payloads| && !Short(payloads[k])
  }

  lemma AnyLongFirst(payloads: seq<Bytes>)
    requires payloads != []
    ensures AnyLong(payloads) <==> !Short(payloads[0]) || AnyLong(payloads[1..])
  {
    var later := payloads[1..];
    if k :| 0 < k < |payloads| && !Short(payloads[k]) {
      assert !Short(later[k - 1]);
    }
    if k :| 0 <= k < |later| && !Short(later[k]) {
      assert !Short(payloads[k + 1]);
    }
  }

  lemma SimpleUnfold(payloads: seq<Bytes>)
    requires payloads != [] && Plain(payloads[0])
    ensures var content := Data(payloads[0], true, false).Content();
            && Encode(Simple(payloads)) == content + [LF] + ([LF] + Encode(Simple(payloads[1..])))
            && LF !in content && (|content| < LIMIT <==> Short(payloads[0]))
  {
    var e, tail := Event([Data(payloads[0], true, false)], false), Encode(Simple(payloads[1..]));
    var content := e.items[0].Content();
    assert Simple(payloads)[1..] == Simple(payloads[1..]);
    assert e.items[1..] == [];
    assert EncodeItems(e.items) == content + [LF];
    ConcatAssociative(EncodeItems(e.items), [LF], tail);
  }

  /** A line is too long exactly if some payload does not fit. */
  lemma {:induction false} TooLongIff(payloads: seq<Bytes>)
    requires forall k :: 0 <= k < |payloads| ==> Plain(payloads[k])
    ensures TooLong(Encode(Simple(payloads))) <==> AnyLong(payloads)
  {
    if payloads != [] {
      var tail := Encode(Simple(payloads[1..]));
      SimpleUnfold(payloads);
      assert [] + [LF] + tail == [LF] + tail;
      LineTooLong(Data(payloads[0], true, false).Content(), [LF] + tail);
      LineTooLong([], tail);
      TooLongIff(payloads[1..]);
      AnyLongFirst(payloads);
    }
  }

  /**
   * A callback that never refuses receives exactly the payloads that were encoded, if and only
   * if each of them fits the scanner's buffer; else it receives those before the first that does not.
   */
  lemma SimpleRoundTrip(payloads: seq<Bytes>, fn: Callback)
    requires forall k :: 0 <= k < |payloads| ==> Plain(payloads[k])
    requires forall seen :: fn(seen)
    ensures Delivered([], Parse(Encode(Simple(payloads))), fn) == UpToLong(payloads)
    ensures UpToLong(payloads) == payloads <==> forall k :: 0 <= k < |payloads| ==> Short(payloads[k])
  {
    RemainingIsParse(Encode(Simple(payloads)));
    SimpleParsed(payloads);
    AllShortIff(payloads);
    NeverRefused([], UpToLong(payloads), fn);
  }

  lemma {:induction false} NeverRefused(sofar: seq<Bytes>, payloads: seq<Bytes>, fn: Callback)
    requires forall seen :: fn(seen)
    ensures Delivered(sofar, payloads, fn) == sofar + payloads
    decreases |payloads|
  {
    if payloads != [] {
      NeverRefused(sofar + [payloads[0]], payloads[1..], fn);
      assert sofar + payloads == sofar + [payloads[0]] + payloads[1..];
    }
  }

  /** The callback sees a prefix; it ends at the end or at the first refusal, and never goes past it. */
  lemma {:induction false} DeliveredStops(sofar: seq<Bytes>, payloads: seq<Bytes>, fn: Callback)
    ensures var d := Delivered(sofar, payloads, fn);
            && sofar <= d <= sofar + payloads
            && (forall n :: |sofar| < n < |d| ==> fn(d[..n]))
            && (|d| < |sofar| + |payloads| ==> |sofar| < |d| && !fn(d))
    decreases |payloads|
  {
    if payloads != [] {
      var next := sofar + [payloads[0]];
      assert sofar + payloads == next + payloads[1..];
      if fn(next) {
        DeliveredStops(next, payloads[1..], fn);
        var d := Delivered(next, payloads[1..], fn);
        assert d[..|next|] == next;
      }
    }
  }
}
