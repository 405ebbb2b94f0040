/**
 * Listings paged by an opaque cursor: a server that stands for a table, and takes the cursor of
 * a query for the position to go on from, is enumerated whole.
 */
module CursorListing {
  import opened Base
  import opened Pagination

  /** How the server writes a position as a cursor, which is never empty. */
  datatype Codec = Codec(format: nat -> string, parse: string -> Option<nat>) {
    ghost predicate Faithful() {
      forall n: nat :: format(n) != "" && parse(format(n)) == Some(n)
    }
  }

  /** The position a query asks for; None when its cursor makes no sense. */
  function Position(codec: Codec, query: Query): Option<nat> {
    if "cursor" !in query || query["cursor"] == [] || query["cursor"][0] == "" then Some(0)
    else codec.parse(query["cursor"][0])
  }

  /**
   * The next rows from the position asked for, whether there are more, and where to go on. On
   * the last page there may be a cursor as well, which means nothing.
   */
  function Table<T>(rows: seq<T>, codec: Codec, limit: nat, lastCursor: Option<string>): Server<T> {
    (n: nat, query: Query) =>
      match Position(codec, query)
      case None => Err("invalid cursor")
      case Some(from) =>
        if from + limit < |rows| then Ok(Wire(rows[from..from + limit], true, Some(codec.format(from + limit))))
        else Ok(Wire(rows[Min(from, |rows|)..], false, lastCursor))
  }

  /** The page of the rows from a position on. */
  function PageAt<T>(
      rows: seq<T>, from: nat, limit: nat, codec: Codec, lastCursor: Option<string>, query: Query): View<T>
    requires from <= |rows|
  {
    if from + limit < |rows| then View(rows[from..from + limit], true, Some(codec.format(from + limit)), query)
    else View(rows[from..], false, lastCursor, query)
  }

  lemma Listed<T>(
      rows: seq<T>, codec: Codec, limit: nat, lastCursor: Option<string>, n: nat, from: nat, query: Query)
    requires from <= |rows| && Position(codec, query) == Some(from)
    ensures Listing(Table(rows, codec, limit, lastCursor), Kind<T>.Cursor, n, query)
         == Ok(PageAt(rows, from, limit, codec, lastCursor, query))
  {
  }

  /** A page with rows left over is followed by the page that starts where it ends; the last one by none. */
  lemma NextPage<T>(
      rows: seq<T>, codec: Codec, limit: nat, lastCursor: Option<string>, n: nat, from: nat, query: Query)
    requires limit > 0 && codec.Faithful() && from <= |rows|
    ensures var v := PageAt(rows, from, limit, codec, lastCursor, query);
            var q := query["cursor" := [codec.format(from + limit)]];
            NextOf(Table(rows, codec, limit, lastCursor), Kind<T>.Cursor, n, v) ==
            if from + limit < |rows| then Fetched(PageAt(rows, from + limit, limit, codec, lastCursor, q))
            else NoMorePages
    ensures var v := PageAt(rows, from, limit, codec, lastCursor, query);
            rows[from..] == if from + limit < |rows| then v.data + rows[from + limit..] else v.data
  {
    assert codec.format(from + limit) != "" && codec.parse(codec.format(from + limit)) == Some(from + limit);
    if from + limit < |rows| {
      Listed(rows, codec, limit, lastCursor, n, from + limit, query["cursor" := [codec.format(from + limit)]]);
    }
  }

  /** From any page the chain is finite, ends without an error, and holds all the rows that are left. */
  lemma {:induction false} WalkYields<T>(
      rows: seq<T>, codec: Codec, limit: nat, lastCursor: Option<string>, n: nat, from: nat, query: Query, steps: nat)
    requires limit > 0 && codec.Faithful() && from <= |rows| <= from + steps
    ensures var server, v := Table(rows, codec, limit, lastCursor), PageAt(rows, from, limit, codec, lastCursor, query);
            && Finite(server, Kind<T>.Cursor, n, v, steps)
            && Walk(server, Kind<T>.Cursor, n, v, steps).error == None
            && DataOf(Walk(server, Kind<T>.Cursor, n, v, steps).pages) == rows[from..]
    decreases steps
  {
    NextPage(rows, codec, limit, lastCursor, n, from, query);
    var server, v := Table(rows, codec, limit, lastCursor), PageAt(rows, from, limit, codec, lastCursor, query);
    if from + limit < |rows| {
      var q := query["cursor" := [codec.format(from + limit)]];
      WalkYields(rows, codec, limit, lastCursor, n + 1, from + limit, q, steps - 1);
      var next := PageAt(rows, from + limit, limit, codec, lastCursor, q);
      WalkJoins(server, Kind<T>.Cursor, n, v, next, steps, rows[from + limit..], rows[from..]);
    } else {
      WalkStops(server, Kind<T>.Cursor, n, v, steps);
    }
  }

  /**
   * Listing from the start or from any cursor and iterating over all pages asks finitely often,
   * meets no error, and shows a consumer that accepts every item exactly the rows from there on,
   * each once and in order, whatever the page size and the filters in the query.
   */
  lemma AllRowsSeen<T>(
      rows: seq<T>, codec: Codec, limit: nat, lastCursor: Option<string>, n: nat, query: Query, steps: nat,
      fn: Consumer<T>, seen: seq<Yield<T>>, fetches: nat)
    requires limit > 0 && codec.Faithful() && |rows| <= steps
    requires Position(codec, query).Some? && Position(codec, query).value <= |rows| && forall ys :: fn(ys)
    ensures var server := Table(rows, codec, limit, lastCursor);
            var first := Listing(server, Kind<T>.Cursor, n, query);
            && first.Ok? && Finite(server, Kind<T>.Cursor, n + 1, first.value, steps)
            && var chain := Walk(server, Kind<T>.Cursor, n + 1, first.value, steps);
               && chain.error == None && DataOf(chain.pages) == rows[Position(codec, query).value..]
               && (Iteration(chain, fn, seen, fetches) ==> seen == Items(rows[Position(codec, query).value..]))
  {
    var from := Position(codec, query).value;
    Listed(rows, codec, limit, lastCursor, n, from, query);
    WalkYields(rows, codec, limit, lastCursor, n + 1, from, query, steps);
    var first := Listing(Table(rows, codec, limit, lastCursor), Kind<T>.Cursor, n, query).value;
    var chain := Walk(Table(rows, codec, limit, lastCursor), Kind<T>.Cursor, n + 1, first, steps);
    if Iteration(chain, fn, seen, fetches) {
      EverythingSeen(chain, fn, seen);
    }
  }

  /** A cursor the server cannot read is the error of the listing. */
  lemma BadCursorFails<T>(
      rows: seq<T>, codec: Codec, limit: nat, lastCursor: Option<string>, n: nat, query: Query)
    requires Position(codec, query) == None
    ensures Listing(Table(rows, codec, limit, lastCursor), Kind<T>.Cursor, n, query) == Err("invalid cursor")
  {
  }
}
