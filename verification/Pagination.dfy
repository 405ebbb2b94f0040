/**
 * List pages, the fetch closures that chain them, and the iterator over all their items. The
 * server is any function from the number of requests made and the query to an answer.
 */
module Pagination {
  import opened Base

  type Query = map<string, seq<string>>

  type Error = string

  /** A decoded list response. */
  datatype Wire<+T> = Wire(data: seq<T>, hasMore: bool, nextCursor: Option<string>)

  type Server<!T> = (nat, Query) -> Result<Wire<T>, Error>

  /** How a listing pages: by the server's cursor, or by the timestamp of its last row. */
  datatype Kind<!T> = Cursor | Keyset(stamp: T -> string) {
    function Key(): string {
      if Cursor? then "cursor" else "before"
    }
  }

  /** A page as a value, with the query that fetched it. */
  datatype View<+T> = View(data: seq<T>, hasMore: bool, nextCursor: Option<string>, query: Query) {
    function Next(): string {
      if nextCursor.Some? then nextCursor.value else ""
    }

    predicate HasMore() {
      hasMore && Next() != ""
    }
  }

  /** What listJSON and submissionsPage make of a response. */
  function PageOf<T>(kind: Kind<T>, wire: Wire<T>, query: Query): View<T> {
    match kind
    case Cursor => View(wire.data, wire.hasMore, wire.nextCursor, query)
    case Keyset(stamp) =>
      View(wire.data, wire.hasMore,
           if wire.hasMore && |wire.data| > 0 then Some(stamp(wire.data[|wire.data| - 1])) else None, query)
  }

  function Listing<T>(server: Server<T>, kind: Kind<T>, n: nat, query: Query): Result<View<T>, Error> {
    match server(n, query)
    case Ok(wire) => Ok(PageOf(kind, wire, query))
    case Err(e) => Err(e)
  }

  // ---------------------------------------------------------------- the chain of pages

  /** The query of the following page. */
  function NextQuery<T>(kind: Kind<T>, v: View<T>): Query {
    v.query[kind.Key() := [v.Next()]]
  }

  datatype Following<+T> = NoMorePages | Failed(error: Error) | Fetched(page: View<T>)

  function NextOf<T>(server: Server<T>, kind: Kind<T>, n: nat, v: View<T>): Following<T> {
    if !v.HasMore() then NoMorePages
    else match Listing(server, kind, n, NextQuery(kind, v))
      case Ok(page) => Fetched(page)
      case Err(e) => Failed(e)
  }

  /** The chain ends within the given number of fetches. */
  ghost predicate Finite<T>(server: Server<T>, kind: Kind<T>, n: nat, v: View<T>, steps: nat)
    decreases steps
  {
    match NextOf(server, kind, n, v)
    case NoMorePages => true
    case Failed(_) => steps > 0
    case Fetched(page) => steps > 0 && Finite(server, kind, n + 1, page, steps - 1)
  }

  /** The pages of a finite chain, and the error it ended with, if any. */
  datatype Chain<+T> = Chain(pages: seq<View<T>>, error: Option<Error>)

  /** Repeating Next until it reports no more pages, or fails. */
  ghost function Walk<T>(server: Server<T>, kind: Kind<T>, n: nat, v: View<T>, steps: nat): (c: Chain<T>)
    requires Finite(server, kind, n, v, steps)
    ensures 0 < |c.pages| <= steps + 1 && c.pages[0] == v
    decreases steps
  {
    match NextOf(server, kind, n, v)
    case NoMorePages => Chain([v], None)
    case Failed(e) => Chain([v], Some(e))
    case Fetched(page) =>
      var rest := Walk(server, kind, n + 1, page, steps - 1);
      Chain([v] + rest.pages, rest.error)
  }

  /** A chain is its first page and the chain of the page that follows it. */
  lemma WalkOn<T>(server: Server<T>, kind: Kind<T>, n: nat, v: View<T>, next: View<T>, steps: nat)
    requires NextOf(server, kind, n, v) == Fetched(next) && steps > 0 && Finite(server, kind, n + 1, next, steps - 1)
    ensures Finite(server, kind, n, v, steps)
    ensures var c, rest := Walk(server, kind, n, v, steps), Walk(server, kind, n + 1, next, steps - 1);
            c.error == rest.error && DataOf(c.pages) == v.data + DataOf(rest.pages)
  {
    var c, rest := Walk(server, kind, n, v, steps), Walk(server, kind, n + 1, next, steps - 1);
    assert c.pages == [v] + rest.pages && c.pages[1..] == rest.pages;
  }

  lemma WalkJoins<T>(
      server: Server<T>, kind: Kind<T>, n: nat, v: View<T>, next: View<T>, steps: nat, later: seq<T>, all: seq<T>)
    requires NextOf(server, kind, n, v) == Fetched(next) && steps > 0
    requires Finite(server, kind, n + 1, next, steps - 1) && all == v.data + later
    requires Walk(server, kind, n + 1, next, steps - 1).error == None
    requires DataOf(Walk(server, kind, n + 1, next, steps - 1).pages) == later
    ensures Finite(server, kind, n, v, steps)
    ensures Walk(server, kind, n, v, steps).error == None && DataOf(Walk(server, kind, n, v, steps).pages) == all
  {
    WalkOn(server, kind, n, v, next, steps);
  }

  lemma WalkStops<T>(server: Server<T>, kind: Kind<T>, n: nat, v: View<T>, steps: nat)
    requires NextOf(server, kind, n, v) == NoMorePages
    ensures Finite(server, kind, n, v, steps)
    ensures Walk(server, kind, n, v, steps).error == None && DataOf(Walk(server, kind, n, v, steps).pages) == v.data
  {
    assert [v][1..] == [] && v.data + [] == v.data;
  }

  /** The number of fetches of a chain: one per further page, and one for the error. */
  function Fetches<T>(c: Chain<T>): int {
    |c.pages| - 1 + if c.error.Some? then 1 else 0
  }

  function DataOf<T>(pages: seq<View<T>>): seq<T> {
    if pages == [] then [] else pages[0].data + DataOf(pages[1..])
  }

  // ---------------------------------------------------------------- iteration

  datatype Yield<+T> = Item(value: T) | Failure(error: Error)

  /** The loop body of the consumer: given all it has seen, whether it goes on. */
  type Consumer<!T> = seq<Yield<T>> -> bool

  function Items<T>(data: seq<T>): (ys: seq<Yield<T>>)
    ensures |ys| == |data| && forall k :: 0 <= k < |ys| ==> ys[k] == Item(data[k])
  {
    seq(|data|, i requires 0 <= i < |data| => Item(data[i]))
  }

  /** Everything a chain has to offer: the items of its pages in order, then its error. */
  function Offer<T>(c: Chain<T>): seq<Yield<T>> {
    Items(DataOf(c.pages)) + Ending(c)
  }

  function Ending<T>(c: Chain<T>): seq<Yield<T>> {
    if c.error.Some? then [Failure(c.error.value)] else []
  }

  /** The consumer goes on after each of the first yields. */
  ghost predicate Accepts<T>(fn: Consumer<T>, ys: seq<Yield<T>>) {
    forall k :: 0 < k <= |ys| ==> fn(ys[..k])
  }

  /** What the consumer sees: everything up to its first refusal. */
  ghost predicate Consumed<T>(fn: Consumer<T>, offer: seq<Yield<T>>, seen: seq<Yield<T>>) {
    && seen <= offer
    && (forall k :: 0 < k < |seen| ==> fn(seen[..k]))
    && (|seen| < |offer| ==> |seen| > 0 && !fn(seen))
  }

  lemma ItemsAppend<T>(a: seq<T>, b: seq<T>)
    ensures Items(a + b) == Items(a) + Items(b)
  {
  }

  lemma {:induction false} DataAppend<T>(a: seq<View<T>>, b: seq<View<T>>)
    ensures DataOf(a + b) == DataOf(a) + DataOf(b)
  {
    if a == [] {
      assert a + b == b;
    } else {
      assert (a + b)[1..] == a[1..] + b;
      DataAppend(a[1..], b);
    }
  }

  /** The offer of a chain, around one of its pages. */
  lemma OfferAround<T>(c: Chain<T>, i: nat)
    requires i < |c.pages|
    ensures Items(DataOf(c.pages[..i])) + Items(c.pages[i].data) == Items(DataOf(c.pages[..i + 1])) <= Offer(c)
    ensures i == |c.pages| - 1 ==> Offer(c) == Items(DataOf(c.pages[..i + 1])) + Ending(c)
  {
    var before, page, after := c.pages[..i], [c.pages[i]], c.pages[i + 1..];
    assert c.pages == before + page + after && c.pages[..i + 1] == before + page;
    DataAppend(before, page);
    assert DataOf(page) == c.pages[i].data by {
      assert page[1..] == [];
    }
    ItemsAppend(DataOf(before), c.pages[i].data);
    DataAppend(before + page, after);
    ItemsAppend(DataOf(before + page), DataOf(after));
  }

  lemma AcceptsOneMore<T>(fn: Consumer<T>, ys: seq<Yield<T>>, y: Yield<T>)
    requires Accepts(fn, ys)
    ensures Accepts(fn, ys + [y]) <==> fn(ys + [y])
  {
    assert (ys + [y])[..|ys| + 1] == ys + [y];
    assert forall k :: 0 < k <= |ys| ==> (ys + [y])[..k] == ys[..k];
  }

  /** A refusal among the items of page i, after all before were accepted. */
  lemma RefusedInPage<T>(fn: Consumer<T>, c: Chain<T>, i: nat, j: nat, seen: seq<Yield<T>>)
    requires i < |c.pages| && 0 < j <= |c.pages[i].data|
    requires seen == Items(DataOf(c.pages[..i])) + Items(c.pages[i].data[..j]) && !fn(seen)
    requires Accepts(fn, seen[..|seen| - 1])
    ensures Consumed(fn, Offer(c), seen) && !Accepts(fn, Items(DataOf(c.pages[..i + 1])))
  {
    OfferAround(c, i);
    var all := Items(DataOf(c.pages[..i + 1]));
    assert Items(c.pages[i].data[..j]) == Items(c.pages[i].data)[..j];
    assert all[..|seen|] == seen;
    assert forall k :: 0 < k < |seen| ==> seen[..|seen| - 1][..k] == seen[..k];
  }

  /** Accepting every item is enough to see the whole offer: the error is not asked about. */
  lemma AllItemsAccepted<T>(fn: Consumer<T>, c: Chain<T>)
    requires Accepts(fn, Items(DataOf(c.pages)))
    ensures Consumed(fn, Offer(c), Offer(c))
  {
    var items := Items(DataOf(c.pages));
    assert forall k :: 0 < k < |Offer(c)| ==> Offer(c)[..k] == items[..k];
  }

  /**
   * An iteration over a chain: the consumer sees the offer up to its first refusal, and a page
   * is fetched exactly when every item before it has been accepted.
   */
  ghost predicate Iteration<T>(c: Chain<T>, fn: Consumer<T>, seen: seq<Yield<T>>, fetches: nat) {
    && Consumed(fn, Offer(c), seen)
    && fetches <= Fetches(c) && fetches <= |c.pages|
    && Accepts(fn, Items(DataOf(c.pages[..fetches])))
    && (fetches < Fetches(c) ==> !Accepts(fn, Items(DataOf(c.pages[..fetches + 1]))))
  }

  /** The ways an iteration ends once the pages before the current one are accepted. */
  lemma IterationEnds<T>(c: Chain<T>, fn: Consumer<T>, i: nat, j: nat, seen: seq<Yield<T>>)
    requires i < |c.pages| && j <= |c.pages[i].data|
    requires seen == Items(DataOf(c.pages[..i])) + Items(c.pages[i].data[..j])
    requires Accepts(fn, Items(DataOf(c.pages[..i])))
    ensures 0 < j && Accepts(fn, seen[..|seen| - 1]) && !fn(seen) ==> Iteration(c, fn, seen, i)
    ensures Accepts(fn, seen) && j == |c.pages[i].data| ==>
      && seen == Items(DataOf(c.pages[..i + 1]))
      && (i + 1 == |c.pages| && c.error.None? ==> Iteration(c, fn, seen, i))
      && (i + 1 == |c.pages| && c.error.Some? ==> Iteration(c, fn, seen + [Failure(c.error.value)], i + 1))
  {
    OfferAround(c, i);
    if 0 < j && Accepts(fn, seen[..|seen| - 1]) && !fn(seen) {
      RefusedInPage(fn, c, i, j, seen);
    }
    if Accepts(fn, seen) && j == |c.pages[i].data| && i + 1 == |c.pages| {
      assert c.pages[i].data[..j] == c.pages[i].data && c.pages[..i + 1] == c.pages;
      AllItemsAccepted(fn, c);
      assert seen + [] == seen;
    }
  }

  lemma EverythingSeen<T>(chain: Chain<T>, fn: Consumer<T>, seen: seq<Yield<T>>)
    requires chain.error.None? && Consumed(fn, Offer(chain), seen) && forall ys :: fn(ys)
    ensures seen == Items(DataOf(chain.pages))
  {
    assert Items(DataOf(chain.pages)) + [] == Items(DataOf(chain.pages));
  }

  /**
   * A chain is what the server answered: each page but the first holds the data of the answer to
   * the query before it, and the chain ends with an error exactly if its last query was answered
   * with one.
   */
  lemma ChainIsAnswers<T>(server: Server<T>, kind: Kind<T>, n: nat, v: View<T>, steps: nat, i: nat)
    requires Finite(server, kind, n, v, steps)
    requires i < |Walk(server, kind, n, v, steps).pages|
    ensures var c := Walk(server, kind, n, v, steps);
            var asked := c.pages[i].hasMore && c.pages[i].Next() != "";
            var answer := server(n + i, c.pages[i].query[kind.Key() := [c.pages[i].Next()]]);
            && (i + 1 < |c.pages| <==> asked && answer.Ok?)
            && (i + 1 < |c.pages| ==>
              c.pages[i + 1].data == answer.value.data && c.pages[i + 1].hasMore == answer.value.hasMore)
            && (i + 1 == |c.pages| ==> (c.error.Some? <==> asked))
            && (i + 1 == |c.pages| && asked ==> answer == Err(c.error.value))
  {
    WalkFrom(server, kind, n, v, steps, i);
  }

  /** A keyset page without rows has no row to go on from, whatever the server says. */
  lemma EmptyPageStops<T>(server: Server<T>, stamp: T -> string, n: nat, wire: Wire<T>, query: Query)
    requires wire.data == []
    ensures NextOf(server, Keyset(stamp), n, PageOf(Keyset(stamp), wire, query)) == NoMorePages
  {
  }

  /** The queries of the pages after the given ones. */
  function Queries<T>(kind: Kind<T>, pages: seq<View<T>>): (qs: seq<Query>)
    ensures |qs| == |pages| && forall k :: 0 <= k < |qs| ==> qs[k] == NextQuery(kind, pages[k])
  {
    seq(|pages|, i requires 0 <= i < |pages| => NextQuery(kind, pages[i]))
  }

  lemma QueriesSnoc<T>(kind: Kind<T>, pages: seq<View<T>>, i: nat)
    requires i < |pages|
    ensures Queries(kind, pages[..i + 1]) == Queries(kind, pages[..i]) + [NextQuery(kind, pages[i])]
  {
  }

  /** What follows page i of a chain. */
  function After<T>(c: Chain<T>, i: nat): Following<T>
    requires i < |c.pages|
  {
    if i + 1 < |c.pages| then Fetched(c.pages[i + 1]) else if c.error.None? then NoMorePages else Failed(c.error.value)
  }

  /** Page i of a chain, seen from the page itself. */
  lemma {:induction false} WalkFrom<T>(server: Server<T>, kind: Kind<T>, n: nat, v: View<T>, steps: nat, i: nat)
    requires Finite(server, kind, n, v, steps)
    requires i < |Walk(server, kind, n, v, steps).pages|
    ensures var c := Walk(server, kind, n, v, steps);
            NextOf(server, kind, n + i, c.pages[i]) == After(c, i)
    decreases i
  {
    if i > 0 {
      var page := NextOf(server, kind, n, v).page;
      WalkFrom(server, kind, n + 1, page, steps - 1, i - 1);
    }
  }

  /**
   * Every page but the first is fetched with the first page's query, in which only the cursor
   * is replaced, by the non-empty cursor of the page before.
   */
  lemma {:induction false} QueriesKeepFilters<T>(
      server: Server<T>, kind: Kind<T>, n: nat, v: View<T>, steps: nat, i: nat)
    requires Finite(server, kind, n, v, steps)
    requires i < Fetches(Walk(server, kind, n, v, steps))
    ensures var pages := Walk(server, kind, n, v, steps).pages;
            && pages[i].Next() != ""
            && Queries(kind, pages)[i] == v.query[kind.Key() := [pages[i].Next()]]
            && (i + 1 < |pages| ==> pages[i + 1].query == Queries(kind, pages)[i])
  {
    var pages := Walk(server, kind, n, v, steps).pages;
    WalkFrom(server, kind, n, v, steps, i);
    if i > 0 {
      QueriesKeepFilters(server, kind, n, v, steps, i - 1);
    }
  }
}
