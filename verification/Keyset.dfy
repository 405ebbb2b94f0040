/**
 * Form submissions are paged by timestamp: the cursor is the creation time of the page's last
 * row, and the server answers with rows strictly older, newest first. Instants are integers,
 * and their full-precision text is a codec.
 */
module Keyset {
  import opened Base
  import opened Pagination

  datatype Row = Row(id: string, at: int)

  /** Formatting and parsing of instants; a faithful one loses nothing. */
  datatype Codec = Codec(format: int -> string, parse: string -> Option<int>) {
    ghost predicate Faithful() {
      forall t :: format(t) != "" && parse(format(t)) == Some(t)
    }
  }

  /** Newest first. */
  ghost predicate Sorted(rows: seq<Row>) {
    forall i, j :: 0 <= i < j < |rows| ==> rows[i].at >= rows[j].at
  }

  function OlderThan(rows: seq<Row>, t: int): seq<Row> {
    if rows == [] then []
    else (if rows[0].at < t then [rows[0]] else []) + OlderThan(rows[1..], t)
  }

  /** The rows a query selects, before the page size applies; None when the instant is malformed. */
  function Selected(rows: seq<Row>, codec: Codec, query: Query): Option<seq<Row>> {
    if "before" !in query || query["before"] == [] then Some(rows)
    else match codec.parse(query["before"][0])
      case Some(t) => Some(OlderThan(rows, t))
      case None => None
  }

  /** The submissions endpoint: the first rows selected, and whether there are more. */
  function Endpoint(rows: seq<Row>, codec: Codec, limit: nat): Server<Row> {
    (n: nat, query: Query) =>
      match Selected(rows, codec, query)
      case None => Err("invalid before")
      case Some(selected) => Ok(Wire(selected[..Min(limit, |selected|)], |selected| > limit, None))
  }

  function RowKind(codec: Codec): Kind<Row> {
    Kind.Keyset((r: Row) => codec.format(r.at))
  }

  // ---------------------------------------------------------------- rows older than an instant

  lemma {:induction false} OlderShrinks(rows: seq<Row>, t: int)
    ensures |OlderThan(rows, t)| <= |rows|
    ensures forall k :: 0 <= k < |OlderThan(rows, t)| ==> OlderThan(rows, t)[k].at < t
    ensures Sorted(rows) ==> Sorted(OlderThan(rows, t))
    ensures forall k :: 0 <= k < |OlderThan(rows, t)| ==> OlderThan(rows, t)[k] in rows
  {
    if rows != [] {
      OlderShrinks(rows[1..], t);
    }
  }

  /** The older rows of a sorted table are a suffix of it. */
  lemma {:induction false} OlderIsSuffix(rows: seq<Row>, t: int, i: nat)
    requires Sorted(rows) && i <= |rows|
    requires forall k :: 0 <= k < i ==> rows[k].at >= t
    requires forall k :: i <= k < |rows| ==> rows[k].at < t
    ensures OlderThan(rows, t) == rows[i..]
  {
    if rows != [] {
      OlderIsSuffix(rows[1..], t, if i == 0 then 0 else i - 1);
      assert i > 0 ==> rows[1..][i - 1..] == rows[i..];
    }
  }

  lemma {:induction false} SplitPoint(rows: seq<Row>, t: int, from: nat) returns (i: nat)
    requires Sorted(rows) && from <= |rows|
    requires forall k :: 0 <= k < from ==> rows[k].at >= t
    ensures from <= i <= |rows|
    ensures forall k :: 0 <= k < i ==> rows[k].at >= t
    ensures forall k :: i <= k < |rows| ==> rows[k].at < t
  {
    if rows == [] || rows[0].at < t {
      i := 0;
    } else {
      i := SplitPoint(rows[1..], t, if from == 0 then 0 else from - 1);
      i := i + 1;
      assert forall k :: 0 < k < |rows| ==> rows[k] == rows[1..][k - 1];
    }
  }

  // ---------------------------------------------------------------- the walk

  /** What a walk yields when the selected rows are left: a page, then the rows older than its last. */
  function Yielded(left: seq<Row>, limit: nat): seq<Row>
    requires limit > 0
    decreases |left|
  {
    if |left| <= limit then left
    else
      OlderShrinks(left[limit..], left[limit - 1].at);
      left[..limit] + Yielded(OlderThan(left[limit..], left[limit - 1].at), limit)
  }

  /** The page on which the rows from the given position on are served. */
  function PageAt(rows: seq<Row>, from: nat, limit: nat, codec: Codec, query: Query): View<Row>
    requires limit > 0 && from <= |rows|
  {
    var left := rows[from..];
    PageOf(RowKind(codec), Wire(left[..Min(limit, |left|)], |left| > limit, None), query)
  }

  lemma YieldedStep(rows: seq<Row>, from: nat, limit: nat, i: nat)
    requires limit > 0 && Sorted(rows) && from + limit <= i <= |rows| && from + limit < |rows|
    requires forall k :: from <= k < i ==> rows[k].at >= rows[from + limit - 1].at
    requires forall k :: i <= k < |rows| ==> rows[k].at < rows[from + limit - 1].at
    ensures Yielded(rows[from..], limit) == rows[from..from + limit] + Yielded(rows[i..], limit)
  {
    var left, rest := rows[from..], rows[from + limit..];
    var t := rows[from + limit - 1].at;
    assert left[..limit] == rows[from..from + limit] && left[limit..] == rest && left[limit - 1].at == t;
    SuffixOf(rows, from + limit, t, i);
    YieldedUnfold(left, limit, rows[i..]);
  }

  lemma YieldedUnfold(left: seq<Row>, limit: nat, older: seq<Row>)
    requires 0 < limit < |left| && older == OlderThan(left[limit..], left[limit - 1].at)
    ensures Yielded(left, limit) == left[..limit] + Yielded(older, limit)
  {
  }

  lemma SuffixOf(rows: seq<Row>, start: nat, t: int, i: nat)
    requires Sorted(rows) && start <= i <= |rows|
    requires forall k :: start <= k < i ==> rows[k].at >= t
    requires forall k :: i <= k < |rows| ==> rows[k].at < t
    ensures OlderThan(rows[start..], t) == rows[i..]
  {
    var rest := rows[start..];
    assert forall k {:trigger rest[k]} :: 0 <= k < |rest| ==> rest[k] == rows[start + k];
    OlderIsSuffix(rest, t, i - start);
    assert rest[i - start..] == rows[i..];
  }

  lemma SelectedByCursor(rows: seq<Row>, codec: Codec, t: int, query: Query)
    requires codec.Faithful()
    ensures Selected(rows, codec, query["before" := [codec.format(t)]]) == Some(OlderThan(rows, t))
  {
    assert codec.parse(codec.format(t)) == Some(t);
  }

  /** A page with rows left over is followed by the page of the rows older than its last. */
  lemma NextPage(rows: seq<Row>, codec: Codec, limit: nat, n: nat, from: nat, query: Query) returns (i: nat, q: Query)
    requires limit > 0 && codec.Faithful() && Sorted(rows) && from + limit < |rows|
    ensures from + limit <= i <= |rows|
    ensures NextOf(Endpoint(rows, codec, limit), RowKind(codec), n, PageAt(rows, from, limit, codec, query))
         == Fetched(PageAt(rows, i, limit, codec, q))
    ensures Yielded(rows[from..], limit) == PageAt(rows, from, limit, codec, query).data + Yielded(rows[i..], limit)
  {
    assert PageAt(rows, from, limit, codec, query).data == rows[from..from + limit];
    var t := rows[from + limit - 1].at;
    i := SplitPoint(rows, t, from + limit);
    YieldedStep(rows, from, limit, i);
    q := query["before" := [codec.format(t)]];
    OlderIsSuffix(rows, t, i);
    PageAfter(rows, codec, limit, n, from, i, query);
  }

  lemma PageAfter(rows: seq<Row>, codec: Codec, limit: nat, n: nat, from: nat, i: nat, query: Query)
    requires limit > 0 && codec.Faithful() && from + limit < |rows| && i <= |rows|
    requires OlderThan(rows, rows[from + limit - 1].at) == rows[i..]
    ensures NextOf(Endpoint(rows, codec, limit), RowKind(codec), n, PageAt(rows, from, limit, codec, query))
         == Fetched(PageAt(rows, i, limit, codec, query["before" := [codec.format(rows[from + limit - 1].at)]]))
  {
    var t := rows[from + limit - 1].at;
    assert codec.format(t) != "";
    CursorAt(rows, codec, limit, from, query);
    SelectedByCursor(rows, codec, t, query);
    Listed(rows, codec, limit, n, i, query["before" := [codec.format(t)]]);
  }

  lemma CursorAt(rows: seq<Row>, codec: Codec, limit: nat, from: nat, query: Query)
    requires limit > 0 && from + limit < |rows|
    ensures var v := PageAt(rows, from, limit, codec, query);
            v.hasMore && v.query == query && v.nextCursor == Some(codec.format(rows[from + limit - 1].at))
  {
  }

  lemma Listed(rows: seq<Row>, codec: Codec, limit: nat, n: nat, i: nat, query: Query)
    requires limit > 0 && i <= |rows| && Selected(rows, codec, query) == Some(rows[i..])
    ensures Listing(Endpoint(rows, codec, limit), RowKind(codec), n, query) == Ok(PageAt(rows, i, limit, codec, query))
  {
  }

  /**
   * From any page the chain is finite, for the rows older than the cursor strictly shrink, and
   * it ends without an error after yielding what is specified.
   */
  lemma {:induction false} WalkYields(
      rows: seq<Row>, codec: Codec, limit: nat, n: nat, from: nat, query: Query, steps: nat)
    requires limit > 0 && codec.Faithful() && Sorted(rows) && from <= |rows| <= from + steps
    ensures var server, kind := Endpoint(rows, codec, limit), RowKind(codec);
            var v := PageAt(rows, from, limit, codec, query);
            && Finite(server, kind, n, v, steps)
            && Walk(server, kind, n, v, steps).error == None
            && DataOf(Walk(server, kind, n, v, steps).pages) == Yielded(rows[from..], limit)
    decreases steps
  {
    var server, kind, v := Endpoint(rows, codec, limit), RowKind(codec), PageAt(rows, from, limit, codec, query);
    if from + limit < |rows| {
      var i, q := NextPage(rows, codec, limit, n, from, query);
      var next := PageAt(rows, i, limit, codec, q);
      WalkYields(rows, codec, limit, n + 1, i, q, steps - 1);
      WalkJoins(server, kind, n, v, next, steps, Yielded(rows[i..], limit), Yielded(rows[from..], limit));
    } else {
      LastPage(rows, codec, limit, n, from, query);
      WalkStops(server, kind, n, v, steps);
    }
  }

  lemma LastPage(rows: seq<Row>, codec: Codec, limit: nat, n: nat, from: nat, query: Query)
    requires limit > 0 && from <= |rows| <= from + limit
    ensures var v := PageAt(rows, from, limit, codec, query);
            && NextOf(Endpoint(rows, codec, limit), RowKind(codec), n, v) == NoMorePages
            && v.data == Yielded(rows[from..], limit)
  {
    var left := rows[from..];
    assert left[..|left|] == left;
  }

  // ---------------------------------------------------------------- completeness

  /** The position where page j starts when every page is full. */
  function Boundary(j: nat, limit: nat): nat {
    j * limit
  }

  /** No two rows on either side of a page boundary share their timestamp. */
  ghost predicate CleanBoundaries(left: seq<Row>, limit: nat) {
    forall j :: 1 <= j && 0 < Boundary(j, limit) < |left| ==>
      left[Boundary(j, limit) - 1].at != left[Boundary(j, limit)].at
  }

  /** The walk yields every row exactly once, in order, exactly when no boundary splits a tie. */
  lemma {:induction false} CompleteIff(left: seq<Row>, limit: nat)
    requires limit > 0 && Sorted(left)
    ensures |Yielded(left, limit)| <= |left|
    ensures Yielded(left, limit) == left <==> CleanBoundaries(left, limit)
    decreases |left|
  {
    if |left| > limit {
      var rest := left[limit..];
      var t := left[limit - 1].at;
      OlderShrinks(rest, t);
      CompleteIff(OlderThan(rest, t), limit);
      if left[limit].at == t {
        TieAtBoundary(left, limit);
      } else {
        OlderIsSuffix(rest, t, 0);
        assert rest[0..] == rest;
        BoundariesShift(left, limit);
        SamePrefix(left, limit, Yielded(rest, limit));
      }
    } else {
      OnePage(left, limit);
    }
  }

  lemma OnePage(left: seq<Row>, limit: nat)
    requires limit >= |left|
    ensures CleanBoundaries(left, limit)
  {
    forall j | 1 <= j
      ensures Boundary(j, limit) >= limit
    {
      BoundaryStep(j - 1, limit);
    }
  }

  lemma SamePrefix(left: seq<Row>, limit: nat, tail: seq<Row>)
    requires limit <= |left|
    ensures left[..limit] + tail == left <==> tail == left[limit..]
  {
    assert left == left[..limit] + left[limit..];
    assert (left[..limit] + tail)[limit..] == tail;
  }

  lemma TieAtBoundary(left: seq<Row>, limit: nat)
    requires 0 < limit < |left| && left[limit - 1].at == left[limit].at
    ensures !CleanBoundaries(left, limit)
    ensures |OlderThan(left[limit..], left[limit].at)| < |left| - limit
  {
    assert Boundary(1, limit) == limit;
    OlderShrinks(left[limit..][1..], left[limit].at);
  }

  lemma BoundaryStep(j: nat, limit: nat)
    ensures Boundary(j + 1, limit) == Boundary(j, limit) + limit
  {
  }

  lemma BoundariesShift(left: seq<Row>, limit: nat)
    requires 0 < limit < |left| && left[limit - 1].at != left[limit].at
    ensures CleanBoundaries(left, limit) <==> CleanBoundaries(left[limit..], limit)
  {
    var rest := left[limit..];
    forall j | 1 <= j && 0 < Boundary(j, limit) < |rest| && CleanBoundaries(left, limit)
      ensures rest[Boundary(j, limit) - 1].at != rest[Boundary(j, limit)].at
    {
      BoundaryStep(j, limit);
      assert left[Boundary(j + 1, limit) - 1].at != left[Boundary(j + 1, limit)].at;
    }
    forall j | 1 <= j && 0 < Boundary(j, limit) < |left| && CleanBoundaries(rest, limit)
      ensures left[Boundary(j, limit) - 1].at != left[Boundary(j, limit)].at
    {
      BoundaryStep(j - 1, limit);
      if j > 1 {
        BoundaryStep(j - 2, limit);
        assert rest[Boundary(j - 1, limit) - 1].at != rest[Boundary(j - 1, limit)].at;
      }
    }
  }

  // ---------------------------------------------------------------- the theorem

  /** FormSubmissionListParams.values, but for the page size. */
  function ParamsQuery(codec: Codec, before: Option<int>): Query {
    if before.Some? then map["before" := [codec.format(before.value)]] else map[]
  }

  function StartRows(rows: seq<Row>, before: Option<int>): seq<Row> {
    if before.Some? then OlderThan(rows, before.value) else rows
  }

  /**
   * The pages of the submissions after a start form a finite chain without an error, and hold
   * every row older than the start exactly once, newest first, if and only if no two rows at a
   * page boundary have the same timestamp.
   */
  lemma SubmissionsEnumerated(rows: seq<Row>, codec: Codec, limit: nat, n: nat, before: Option<int>, steps: nat)
    requires limit > 0 && codec.Faithful() && Sorted(rows) && |rows| <= steps
    ensures var server, kind := Endpoint(rows, codec, limit), RowKind(codec);
            var first := Listing(server, kind, n, ParamsQuery(codec, before));
            && first.Ok? && Finite(server, kind, n + 1, first.value, steps)
            && var chain := Walk(server, kind, n + 1, first.value, steps);
               && chain.error == None
               && (DataOf(chain.pages) == StartRows(rows, before) <==> CleanBoundaries(StartRows(rows, before), limit))
  {
    var from := FirstPage(rows, codec, limit, n, before);
    WalkYields(rows, codec, limit, n + 1, from, ParamsQuery(codec, before), steps);
    CompleteIff(rows[from..], limit);
  }

  /** The first request gets the page at the first row older than the start. */
  lemma FirstPage(rows: seq<Row>, codec: Codec, limit: nat, n: nat, before: Option<int>) returns (from: nat)
    requires limit > 0 && codec.Faithful() && Sorted(rows)
    ensures from <= |rows| && StartRows(rows, before) == rows[from..]
    ensures var q := ParamsQuery(codec, before);
            Listing(Endpoint(rows, codec, limit), RowKind(codec), n, q) == Ok(PageAt(rows, from, limit, codec, q))
  {
    from := 0;
    if before.Some? {
      from := SplitPoint(rows, before.value, 0);
      OlderIsSuffix(rows, before.value, from);
      assert codec.parse(codec.format(before.value)) == Some(before.value);
    } else {
      assert rows[0..] == rows;
    }
    Listed(rows, codec, limit, n, from, ParamsQuery(codec, before));
  }

  /**
   * All over the submissions: whatever iteration it performs for a consumer that accepts every
   * item, the consumer sees exactly the rows after the start, each once and newest first, if and
   * only if no page boundary splits a tie.
   */
  lemma AllSubmissionsSeen(
      rows: seq<Row>, codec: Codec, limit: nat, n: nat, before: Option<int>, steps: nat,
      fn: Consumer<Row>, seen: seq<Yield<Row>>, fetches: nat)
    requires limit > 0 && codec.Faithful() && Sorted(rows) && |rows| <= steps
    requires forall ys :: fn(ys)
    requires var server, kind := Endpoint(rows, codec, limit), RowKind(codec);
             var first := Listing(server, kind, n, ParamsQuery(codec, before));
             && first.Ok? && Finite(server, kind, n + 1, first.value, steps)
             && Iteration(Walk(server, kind, n + 1, first.value, steps), fn, seen, fetches)
    ensures seen == Items(StartRows(rows, before)) <==> CleanBoundaries(StartRows(rows, before), limit)
  {
    SubmissionsEnumerated(rows, codec, limit, n, before, steps);
    var server, kind := Endpoint(rows, codec, limit), RowKind(codec);
    var first := Listing(server, kind, n, ParamsQuery(codec, before)).value;
    var chain := Walk(server, kind, n + 1, first, steps);
    EverythingSeen(chain, fn, seen);
    ItemsInjective(DataOf(chain.pages), StartRows(rows, before));
  }

  lemma ItemsInjective<T>(a: seq<T>, b: seq<T>)
    ensures Items(a) == Items(b) <==> a == b
  {
    if Items(a) == Items(b) {
      assert |a| == |Items(a)| == |Items(b)| == |b|;
      forall k | 0 <= k < |a|
        ensures a[k] == b[k]
      {
        assert Items(a)[k] == Item(a[k]) && Items(b)[k] == Item(b[k]);
      }
    }
  }

  /** Distinct timestamps are enough. */
  lemma DistinctIsClean(left: seq<Row>, limit: nat)
    requires forall i, j :: 0 <= i < j < |left| ==> left[i].at != left[j].at
    ensures CleanBoundaries(left, limit)
  {
  }

  /** Three rows of one instant and pages of two: the third row is never yielded. */
  lemma TieLosesRow(a: string, b: string, c: string, t: int)
    ensures Yielded([Row(a, t), Row(b, t), Row(c, t)], 2) == [Row(a, t), Row(b, t)]
  {
    var rows := [Row(a, t), Row(b, t), Row(c, t)];
    assert rows[2..] == [Row(c, t)] && rows[..2] == [Row(a, t), Row(b, t)];
    assert OlderThan([Row(c, t)], t) == OlderThan([], t);
  }
}
