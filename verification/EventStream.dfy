/**
 * The event-stream loop: lines are scanned from the response body and the data lines of an
 * event are collected in one reused buffer. A line that does not fit the scanner's 1 MiB buffer
 * ends the scan, and so does a failing read, after the bytes before it.
 */
module EventStream {
  import opened Base

  type Bytes = seq<byte>

  const LF: byte := 10
  const CR: byte := 13
  const SPACE: byte := 32

  /** The size of the scanner's buffer, which a line must not fill. */
  const LIMIT: nat := 0x10_0000

  /** The bytes of "data:". */
  const DATA: Bytes := [100, 97, 116, 97, 58]

  /** The caller's callback: given everything delivered so far, whether to go on. */
  type Callback = seq<Bytes> -> bool

  // ---------------------------------------------------------------- lines

  function LineEnd(b: Bytes): (k: nat)
    ensures k <= |b|
    ensures forall i :: 0 <= i < k ==> b[i] != LF
    ensures k < |b| ==> b[k] == LF
  {
    if b == [] || b[0] == LF then 0 else 1 + LineEnd(b[1..])
  }

  function DropCR(line: Bytes): Bytes {
    if line != [] && line[|line| - 1] == CR then line[..|line| - 1] else line
  }

  /**
   * The lines of a body up to the first one that is too long: LF and one CR before it are
   * dropped; a last line needs no LF.
   */
  function Lines(b: Bytes): seq<Bytes>
    decreases |b|
  {
    if b == [] || LineEnd(b) >= LIMIT then []
    else
      var k := LineEnd(b);
      [DropCR(b[..k])] + Lines(Beyond(b, k))
  }

  /** Whether some line is too long. */
  predicate TooLong(b: Bytes)
    decreases |b|
  {
    b != [] && (LineEnd(b) >= LIMIT || TooLong(Beyond(b, LineEnd(b))))
  }

  /** What follows a line that ends at k. */
  function Beyond(b: Bytes, k: nat): Bytes {
    if k < |b| then b[k + 1..] else []
  }

  class Scanner {
    const readFails: bool
    var rest: Bytes
    var line: Bytes
    var tooLong: bool

    /** A scanner over the bytes that arrive before the body ends, or before a read of it fails. */
    constructor (body: Bytes, readFails: bool)
      ensures rest == body && this.readFails == readFails && !tooLong
    {
      this.readFails := readFails;
      rest, line, tooLong := body, [], false;
    }

    method Scan() returns (ok: bool)
      requires !tooLong
      modifies this
      ensures Lines(old(rest)) == if ok then [line] + Lines(rest) else []
      ensures ok ==> |rest| < |old(rest)| && !tooLong && TooLong(rest) == TooLong(old(rest))
      ensures !ok ==> tooLong == TooLong(old(rest))
    {
      if rest == [] {
        return false;
      }
      var k := LineEnd(rest);
      if k >= LIMIT {
        tooLong := true;
        return false;
      }
      line := DropCR(rest[..k]);
      rest := Beyond(rest, k);
      return true;
    }
  }

  // ---------------------------------------------------------------- specification

  function DataOf(line: Bytes): Bytes {
    if DATA <= line then
      var chunk := line[|DATA|..];
      if chunk != [] && chunk[0] == SPACE then chunk[1..] else chunk
    else []
  }

  function BlankLine(lines: seq<Bytes>): (k: nat)
    ensures k <= |lines|
    ensures forall i :: 0 <= i < k ==> lines[i] != []
    ensures k < |lines| ==> lines[k] == []
  {
    if lines == [] || lines[0] == [] then 0 else 1 + BlankLine(lines[1..])
  }

  /** The runs of lines between blank lines. */
  function Blocks(lines: seq<Bytes>): seq<seq<Bytes>>
    decreases |lines|, 1
  {
    if lines == [] then [] else [lines[..BlankLine(lines)]] + LaterBlocks(lines)
  }

  function LaterBlocks(lines: seq<Bytes>): seq<seq<Bytes>>
    decreases |lines|, 0
  {
    var k := BlankLine(lines);
    if k < |lines| then Blocks(lines[k + 1..]) else []
  }

  function BlockData(block: seq<Bytes>): Bytes {
    if block == [] then [] else DataOf(block[0]) + BlockData(block[1..])
  }

  /** A block without data is not an event. */
  function EventOf(data: Bytes): seq<Bytes> {
    if data != [] then [data] else []
  }

  function Payloads(blocks: seq<seq<Bytes>>): seq<Bytes> {
    if blocks == [] then [] else EventOf(BlockData(blocks[0])) + Payloads(blocks[1..])
  }

  function Parse(body: Bytes): seq<Bytes> {
    Payloads(Blocks(Lines(body)))
  }

  /** What a callback gets to see of a list of payloads: everything up to its first refusal. */
  function Delivered(sofar: seq<Bytes>, payloads: seq<Bytes>, fn: Callback): seq<Bytes>
    decreases |payloads|
  {
    if payloads == [] then sofar
    else if fn(sofar + [payloads[0]]) then Delivered(sofar + [payloads[0]], payloads[1..], fn)
    else sofar + [payloads[0]]
  }

  /** The payloads still to come when data has been collected for the current event. */
  function Remaining(data: Bytes, lines: seq<Bytes>): seq<Bytes>
    decreases |lines|
  {
    if lines == [] then EventOf(data)
    else if lines[0] == [] then EventOf(data) + Remaining([], lines[1..])
    else Remaining(data + DataOf(lines[0]), lines[1..])
  }

  /** The payloads still to come, seen as blocks: the rest of the current one, then the later ones. */
  function BlocksFrom(data: Bytes, lines: seq<Bytes>): seq<Bytes> {
    EventOf(data + BlockData(lines[..BlankLine(lines)])) + Payloads(LaterBlocks(lines))
  }

  /** The accumulating view agrees with the block view. */
  lemma {:induction false} RemainingIsBlocks(data: Bytes, lines: seq<Bytes>)
    ensures Remaining(data, lines) == BlocksFrom(data, lines)
    decreases |lines|
  {
    if lines == [] {
      assert data + [] == data;
    } else if lines[0] == [] {
      RemainingIsBlocks([], lines[1..]);
      BlankFirst(data, lines);
    } else {
      RemainingIsBlocks(data + DataOf(lines[0]), lines[1..]);
      TextFirst(data, lines);
    }
  }

  lemma BlankFirst(data: Bytes, lines: seq<Bytes>)
    requires lines != [] && lines[0] == []
    ensures BlocksFrom(data, lines) == EventOf(data) + BlocksFrom([], lines[1..])
  {
    PayloadsOfBlocks(lines[1..]);
    assert data + BlockData(lines[..0]) == data;
  }

  lemma TextFirst(data: Bytes, lines: seq<Bytes>)
    requires lines != [] && lines[0] != []
    ensures BlocksFrom(data, lines) == BlocksFrom(data + DataOf(lines[0]), lines[1..])
  {
    BlockCons(lines);
    ConcatAssociative(data, DataOf(lines[0]), BlockData(lines[1..][..BlankLine(lines) - 1]));
  }

  /** A non-blank line joins the block that follows it. */
  lemma BlockCons(lines: seq<Bytes>)
    requires lines != [] && lines[0] != []
    ensures var k := BlankLine(lines);
            && k > 0 && BlankLine(lines[1..]) == k - 1
            && BlockData(lines[..k]) == DataOf(lines[0]) + BlockData(lines[1..][..k - 1])
            && LaterBlocks(lines) == LaterBlocks(lines[1..])
  {
    var k := BlankLine(lines);
    assert lines[..k][1..] == lines[1..][..k - 1];
    if k < |lines| {
      assert lines[1..][k..] == lines[k + 1..];
    }
  }

  lemma PayloadsOfBlocks(lines: seq<Bytes>)
    ensures Payloads(Blocks(lines)) == BlocksFrom([], lines)
  {
    var first := lines[..BlankLine(lines)];
    assert [] + BlockData(first) == BlockData(first);
    if lines != [] {
      assert Blocks(lines)[0] == first && Blocks(lines)[1..] == LaterBlocks(lines);
    }
  }

  lemma RemainingIsParse(body: Bytes)
    ensures Remaining([], Lines(body)) == Parse(body)
  {
    RemainingIsBlocks([], Lines(body));
    PayloadsOfBlocks(Lines(body));
  }

  // ---------------------------------------------------------------- the loop

  /** A byte slice over a backing array that appends in place while the capacity lasts. */
  class Slice {
    var backing: array<byte>
    var len: nat

    ghost predicate Valid()
      reads this
    {
      len <= backing.Length
    }

    function View(): Bytes
      requires Valid()
      reads this, backing
    {
      backing[..len]
    }

    constructor ()
      ensures Valid() && View() == [] && fresh(backing)
    {
      backing, len := new byte[0], 0;
    }

    /** append: overwrites the array beyond the slice, or moves to a larger one. */
    method Append(chunk: Bytes)
      requires Valid()
      modifies this, backing
      ensures Valid() && View() == old(View()) + chunk
      ensures backing == old(backing) || fresh(backing)
    {
      if len + |chunk| > backing.Length {
        var grown := new byte[2 * (len + |chunk|)];
        forall i | 0 <= i < len {
          grown[i] := backing[i];
        }
        backing := grown;
      }
      forall i | 0 <= i < |chunk| {
        backing[len + i] := chunk[i];
      }
      len := len + |chunk|;
    }

    /** data[:0]: the array and its bytes stay, the slice is empty. */
    method Reset()
      requires Valid()
      modifies this`len
      ensures Valid() && View() == []
    {
      len := 0;
    }
  }

  /** How a stream ends for the caller: stopped by the callback, at its end, or with an error. */
  datatype Ending = Stopped | Finished | ReadFailed | Canceled

  /**
   * Hands each event's payload to fn as it arrives, and returns what fn was given. body holds
   * the bytes that arrive before the body ends or, with readFails, before a read fails; ctxDone
   * is what the context says at the end.
   */
  method Stream(body: Bytes, readFails: bool, ctxDone: bool, fn: Callback)
    returns (delivered: seq<Bytes>, ending: Ending)
    ensures delivered == Delivered([], Parse(body), fn)
    ensures ending == Stopped <==> exists n: nat :: 0 < n <= Terminated(body) && !fn(Parse(body)[..n])
    ensures ending != Stopped ==>
      ending == if ctxDone then Canceled else if readFails || TooLong(body) then ReadFailed else Finished
  {
    var scanner := new Scanner(body, readFails);
    var data := new Slice();
    delivered := [];
    RemainingIsParse(body);
    assert Parse(body) == [] + Remaining([], Lines(body));
    var more := scanner.Scan();
    while more
      invariant data.Valid() && fresh(data) && fresh(data.backing) && fresh(scanner)
      invariant more ==> !scanner.tooLong && TooLong(scanner.rest) == TooLong(body)
      invariant !more ==> scanner.tooLong == TooLong(body)
      invariant OnTrack(body, fn, delivered, data.View(), if more then [scanner.line] + Lines(scanner.rest) else [])
      decreases more, |scanner.rest|
    {
      var line := scanner.line;
      LineSeen(body, fn, delivered, data.View(), line, Lines(scanner.rest));
      if |line| == 0 {
        if |data.View()| > 0 {
          delivered := delivered + [data.View()];
          if !fn(delivered) {
            return delivered, Stopped;
          }
          data.Reset();
        }
      } else if DATA <= line {
        var chunk := line[|DATA|..];
        data.Append(if chunk != [] && chunk[0] == SPACE then chunk[1..] else chunk);
      }
      more := scanner.Scan();
    }
    LinesOver(body, fn, delivered, data.View());
    if |data.View()| > 0 {
      delivered := delivered + [data.View()];
    }
    if (scanner.tooLong || scanner.readFails) && !ctxDone {
      return delivered, ReadFailed;
    }
    return delivered, if ctxDone then Canceled else Finished;
  }

  /** The data collected for an event that no blank line ends. */
  function OpenData(data: Bytes, lines: seq<Bytes>): Bytes
    decreases |lines|
  {
    if lines == [] then data
    else if lines[0] == [] then OpenData([], lines[1..])
    else OpenData(data + DataOf(lines[0]), lines[1..])
  }

  /** How many of the events of a body are ended by a blank line: all, but for one left open at the end. */
  function Terminated(body: Bytes): nat
    ensures Terminated(body) <= |Parse(body)|
  {
    RemainingIsParse(body);
    OpenCounts([], Lines(body));
    |Parse(body)| - |EventOf(OpenData([], Lines(body)))|
  }

  lemma {:induction false} OpenCounts(data: Bytes, lines: seq<Bytes>)
    ensures |EventOf(OpenData(data, lines))| <= |Remaining(data, lines)|
    decreases |lines|
  {
    if lines != [] {
      OpenCounts(if lines[0] == [] then [] else data + DataOf(lines[0]), lines[1..]);
    }
  }

  /** Everything delivered was accepted, and with the data collected and the lines to come it makes up the whole. */
  ghost predicate OnTrack(body: Bytes, fn: Callback, delivered: seq<Bytes>, data: Bytes, lines: seq<Bytes>) {
    && Parse(body) == delivered + Remaining(data, lines)
    && OpenData(data, lines) == OpenData([], Lines(body))
    && forall n: nat :: 0 < n <= |delivered| ==> fn(delivered[..n])
  }

  /** What one line does: it adds data, ends an event, or does nothing. */
  lemma LineSeen(body: Bytes, fn: Callback, delivered: seq<Bytes>, data: Bytes, line: Bytes, lines: seq<Bytes>)
    requires OnTrack(body, fn, delivered, data, [line] + lines)
    ensures line != [] ==> OnTrack(body, fn, delivered, data + DataOf(line), lines)
    ensures line == [] && data == [] ==> OnTrack(body, fn, delivered, data, lines)
    ensures line == [] && data != [] && fn(delivered + [data]) ==> OnTrack(body, fn, delivered + [data], [], lines)
    ensures line == [] && data != [] && !fn(delivered + [data]) ==>
      && Delivered([], Parse(body), fn) == delivered + [data]
      && |delivered| + 1 <= Terminated(body) && Parse(body)[..|delivered| + 1] == delivered + [data]
    ensures data + [] == data
  {
    assert ([line] + lines)[1..] == lines;
    var rest := Remaining([], lines);
    if line == [] && data == [] {
      assert EventOf(data) + rest == rest;
    } else if line == [] {
      OneMoreDelivered(fn, delivered, data);
      ConcatAssociative(delivered, [data], rest);
      OpenCounts([], lines);
      if !fn(delivered + [data]) {
        FirstRefusal(delivered, data, rest, fn);
      }
    }
  }

  lemma OneMoreDelivered(fn: Callback, delivered: seq<Bytes>, data: Bytes)
    requires forall n: nat :: 0 < n <= |delivered| ==> fn(delivered[..n])
    ensures fn(delivered + [data]) ==>
      forall n: nat :: 0 < n <= |delivered + [data]| ==> fn((delivered + [data])[..n])
  {
    var all := delivered + [data];
    assert all[..|all|] == all;
    assert forall n: nat :: n <= |delivered| ==> all[..n] == delivered[..n];
  }

  /** At the end of the lines, the data collected is one more event, if there is any. */
  lemma LinesOver(body: Bytes, fn: Callback, delivered: seq<Bytes>, data: Bytes)
    requires OnTrack(body, fn, delivered, data, [])
    ensures Parse(body) == delivered + EventOf(data)
    ensures Delivered([], Parse(body), fn) == Parse(body)
    ensures Terminated(body) == |delivered|
    ensures forall n: nat :: 0 < n <= Terminated(body) ==> fn(Parse(body)[..n])
  {
    assert forall n: nat :: n <= |delivered| ==> Parse(body)[..n] == delivered[..n];
    if data == [] {
      assert delivered + [] == delivered;
    }
    assert [] + Parse(body) == Parse(body);
    AllAccepted([], Parse(body), fn);
  }

  lemma {:induction false} AllAccepted(sofar: seq<Bytes>, payloads: seq<Bytes>, fn: Callback)
    requires forall n: nat :: |sofar| < n < |sofar + payloads| ==> fn((sofar + payloads)[..n])
    ensures Delivered(sofar, payloads, fn) == sofar + payloads
    decreases |payloads|
  {
    if payloads != [] {
      var next := sofar + [payloads[0]];
      assert sofar + payloads == next + payloads[1..];
      assert (sofar + payloads)[..|next|] == next;
      if |payloads| > 1 {
        AllAccepted(next, payloads[1..], fn);
      } else {
        assert payloads[1..] == [] && next + [] == next;
      }
    }
  }

  lemma FirstRefusal(delivered: seq<Bytes>, data: Bytes, rest: seq<Bytes>, fn: Callback)
    requires (forall n: nat :: 0 < n <= |delivered| ==> fn(delivered[..n])) && !fn(delivered + [data])
    ensures Delivered([], delivered + [data] + rest, fn) == delivered + [data]
  {
    assert [] + delivered == delivered;
    RefusedAfter([], delivered, data, rest, fn);
  }

  lemma {:induction false} RefusedAfter(
      sofar: seq<Bytes>, accepted: seq<Bytes>, data: Bytes, rest: seq<Bytes>, fn: Callback)
    requires forall n: nat :: |sofar| < n <= |sofar + accepted| ==> fn((sofar + accepted)[..n])
    requires !fn(sofar + accepted + [data])
    ensures Delivered(sofar, accepted + [data] + rest, fn) == sofar + accepted + [data]
    decreases |accepted|
  {
    var all := accepted + [data] + rest;
    if accepted == [] {
      assert sofar + accepted == sofar && all[0] == data;
    } else {
      var next := sofar + [accepted[0]];
      assert sofar + accepted == next + accepted[1..] && (sofar + accepted)[..|next|] == next;
      assert all[0] == accepted[0] && all[1..] == accepted[1..] + [data] + rest;
      RefusedAfter(next, accepted[1..], data, rest, fn);
    }
  }
}
