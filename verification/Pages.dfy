/** Pages as objects: the list methods, the fetch closures, Next and All. */
module Pages {
  import opened Base
  import opened Pagination

  /** A mutable query: a map from keys to lists of values that may be changed in place. */
  class Values {
    var entries: map<string, array<string>>

    constructor ()
      ensures entries == map[]
    {
      entries := map[];
    }

    function Contents(): Query
      reads this, entries.Values
    {
      map k | k in entries :: entries[k][..]
    }

    /** Replaces the list of a key by a new one; no list that existed is changed. */
    method Set(key: string, value: string)
      modifies this
      ensures Contents() == old(Contents())[key := [value]]
      ensures entries.Keys == old(entries.Keys) + {key} && fresh(entries[key])
      ensures forall k :: k in old(entries) && k != key ==> entries[k] == old(entries[k])
    {
      var one := new string[1](_ => value);
      entries := entries[key := one];
      assert one[..] == [value];
    }
  }

  /** A new list with the same values. */
  method CloneList(vs: array<string>) returns (out: array<string>)
    ensures fresh(out) && out[..] == vs[..]
  {
    out := new string[vs.Length];
    for i := 0 to vs.Length
      invariant forall j :: 0 <= j < i ==> out[j] == vs[j]
    {
      out[i] := vs[i];
    }
  }

  /** cloneValues: a deep copy, with the same entries in a new map of new lists. */
  method CloneValues(v: Values) returns (out: Values)
    ensures fresh(out) && forall k :: k in out.entries ==> fresh(out.entries[k])
    ensures out.Contents() == v.Contents()
  {
    out := new Values();
    var keys := v.entries.Keys;
    while keys != {}
      invariant keys <= v.entries.Keys
      invariant out.entries.Keys == v.entries.Keys - keys
      invariant forall k :: k in out.entries ==> fresh(out.entries[k]) && out.entries[k][..] == v.entries[k][..]
      invariant fresh(out)
      decreases keys
    {
      var k :| k in keys;
      var list := CloneList(v.entries[k]);
      out.entries := out.entries[k := list];
      keys := keys - {k};
    }
    assert out.entries.Keys == v.entries.Keys;
  }

  /** The list endpoint behind the client, recording the queries it is asked. */
  class Api<T> {
    const server: Server<T>
    var log: seq<Query>

    constructor (server: Server<T>)
      ensures this.server == server && log == []
    {
      this.server, this.log := server, [];
    }

    method Get(query: Query) returns (r: Result<Wire<T>, Error>)
      modifies this
      ensures r == server(|old(log)|, query) && log == old(log) + [query]
    {
      r := server(|log|, query);
      log := log + [query];
    }
  }

  class Page<T> {
    const kind: Kind<T>
    const query: Values
    var data: seq<T>
    var hasMore: bool
    var nextCursor: Option<string>

    constructor (kind: Kind<T>, query: Values)
      ensures this.kind == kind && this.query == query
      ensures data == [] && !hasMore && nextCursor == None
    {
      this.kind, this.query := kind, query;
      data, hasMore, nextCursor := [], false, None;
    }

    function AsView(): View<T>
      reads this, query, query.entries.Values
    {
      View(data, hasMore, nextCursor, query.Contents())
    }

    function NextCursor(): string
      reads this
    {
      if nextCursor.Some? then nextCursor.value else ""
    }

    predicate HasMore()
      reads this
    {
      hasMore && NextCursor() != ""
    }

    /** The fetch closure: a deep copy of the page's query with the cursor set. */
    method Fetch(api: Api<T>, cursor: string) returns (r: Result<Page<T>, Error>)
      modifies api
      ensures AsView() == old(AsView())
      ensures var q := query.Contents()[kind.Key() := [cursor]];
              && api.log == old(api.log) + [q]
              && Outcome(r) == Listing(api.server, kind, |old(api.log)|, q)
      ensures r.Ok? ==> fresh(r.value) && fresh(r.value.query) && r.value.kind == kind
      ensures r.Ok? ==> var entries := r.value.query.entries; forall k :: k in entries ==> fresh(entries[k])
    {
      var q := CloneValues(query);
      q.Set(kind.Key(), cursor);
      r := ListPage(api, kind, q);
    }

    /** The next page, None when this is the last. */
    method Next(api: Api<T>) returns (r: Option<Result<Page<T>, Error>>)
      modifies api
      ensures AsView() == old(AsView())
      ensures match NextOf(api.server, kind, |old(api.log)|, AsView())
              case NoMorePages => r == None && api.log == old(api.log)
              case Failed(e) => r == Some(Err(e)) && api.log == old(api.log) + [NextQuery(kind, AsView())]
              case Fetched(v) =>
                && r.Some? && r.value.Ok? && r.value.value.AsView() == v && r.value.value.kind == kind
                && fresh(r.value.value) && fresh(r.value.value.query)
                && (var entries := r.value.value.query.entries; forall k :: k in entries ==> fresh(entries[k]))
                && api.log == old(api.log) + [NextQuery(kind, AsView())]
    {
      if !HasMore() {
        return None;
      }
      var page := Fetch(api, NextCursor());
      return Some(page);
    }
  }

  function Outcome<T>(r: Result<Page<T>, Error>): Result<View<T>, Error>
    reads if r.Ok? then {r.value, r.value.query} else {}
    reads if r.Ok? then r.value.query.entries.Values else {}
  {
    if r.Ok? then Ok(r.value.AsView()) else Err(r.error)
  }

  /** listJSON, listPostJSON and submissionsPage: one page, wired to fetch its successor. */
  method ListPage<T>(api: Api<T>, kind: Kind<T>, query: Values) returns (r: Result<Page<T>, Error>)
    modifies api
    ensures api.log == old(api.log) + [query.Contents()]
    ensures Outcome(r) == Listing(api.server, kind, |old(api.log)|, query.Contents())
    ensures r.Ok? ==> fresh(r.value) && r.value.query == query && r.value.kind == kind
  {
    var answer := api.Get(query.Contents());
    if answer.Err? {
      return Err(answer.error);
    }
    var wire := answer.value;
    var page := new Page(kind, query);
    page.data := wire.data;
    page.hasMore := wire.hasMore;
    match kind {
      case Cursor =>
        page.nextCursor := wire.nextCursor;
      case Keyset(stamp) =>
        if wire.hasMore && |wire.data| > 0 {
          page.nextCursor := Some(stamp(wire.data[|wire.data| - 1]));
        }
    }
    r := Ok(page);
  }

  /** The loop over one page's data: ok when the consumer accepted all of it. */
  method YieldPage<T>(data: seq<T>, fn: Consumer<T>, before: seq<Yield<T>>)
    returns (seen: seq<Yield<T>>, ok: bool, ghost j: nat)
    requires Accepts(fn, before)
    ensures j <= |data| && seen == before + Items(data[..j])
    ensures ok ==> j == |data| && Accepts(fn, seen)
    ensures !ok ==> 0 < j && Accepts(fn, seen[..|seen| - 1]) && !fn(seen)
  {
    seen := before;
    for i := 0 to |data|
      invariant seen == before + Items(data[..i]) && Accepts(fn, seen)
    {
      AcceptsOneMore(fn, seen, Item(data[i]));
      assert before + Items(data[..i + 1]) == before + Items(data[..i]) + [Item(data[i])];
      seen := seen + [Item(data[i])];
      if !fn(seen) {
        assert seen[..|seen| - 1] == before + Items(data[..i]);
        return seen, false, i + 1;
      }
    }
    return seen, true, |data|;
  }

  /**
   * All: yields every item of every page, fetching pages on demand. No page and no query that
   * existed before is changed.
   */
  method All<T>(first: Page<T>, api: Api<T>, fn: Consumer<T>, ghost steps: nat)
    returns (seen: seq<Yield<T>>, ghost fetches: nat)
    requires Finite(api.server, first.kind, |api.log|, first.AsView(), steps)
    modifies api
    ensures first.AsView() == old(first.AsView())
    ensures var chain := Walk(api.server, first.kind, |old(api.log)|, old(first.AsView()), steps);
            && Iteration(chain, fn, seen, fetches)
            && api.log == old(api.log) + Queries(first.kind, chain.pages[..fetches])
  {
    ghost var n, v := |api.log|, first.AsView();
    ghost var chain := Walk(api.server, first.kind, n, v, steps);
    var page := first;
    seen := [];
    fetches := 0;
    while true
      invariant fetches < |chain.pages| && page.AsView() == chain.pages[fetches] && page.kind == first.kind
      invariant seen == Items(DataOf(chain.pages[..fetches])) && Accepts(fn, seen)
      invariant api.log == old(api.log) + Queries(first.kind, chain.pages[..fetches])
      decreases steps - fetches
    {
      WalkFrom(api.server, first.kind, n, v, steps, fetches);
      assert |api.log| == n + fetches;
      var next; ghost var more;
      seen, next, more := Turn(page, api, fn, seen, chain, fetches);
      QueriesMore(first.kind, chain.pages, fetches, more, old(api.log));
      fetches := fetches + more;
      if next.None? {
        return;
      }
      page := next.value;
    }
  }

  lemma QueriesMore<T>(kind: Kind<T>, pages: seq<View<T>>, i: nat, more: nat, before: seq<Query>)
    requires i < |pages| && more <= 1
    ensures before + Queries(kind, pages[..i]) + (if more == 1 then [NextQuery(kind, pages[i])] else [])
         == before + Queries(kind, pages[..i + more])
  {
    QueriesSnoc(kind, pages, i);
  }

  /** One turn of the iterator: a page's items, then the page that follows it, if it is to go on. */
  method Turn<T>(
      page: Page<T>, api: Api<T>, fn: Consumer<T>, before: seq<Yield<T>>, ghost chain: Chain<T>, ghost i: nat)
    returns (seen: seq<Yield<T>>, next: Option<Page<T>>, ghost more: nat)
    requires i < |chain.pages| && page.AsView() == chain.pages[i]
    requires NextOf(api.server, page.kind, |api.log|, page.AsView()) == After(chain, i)
    requires before == Items(DataOf(chain.pages[..i])) && Accepts(fn, before)
    modifies api
    ensures more <= 1 && api.log == old(api.log) + if more == 1 then [NextQuery(page.kind, chain.pages[i])] else []
    ensures next.None? ==> Iteration(chain, fn, seen, i + more)
    ensures next.Some? ==>
      && more == 1 && i + 1 < |chain.pages| && next.value.AsView() == chain.pages[i + 1] && next.value.kind == page.kind
      && seen == Items(DataOf(chain.pages[..i + 1])) && Accepts(fn, seen)
  {
    var ok; ghost var j;
    seen, ok, j := YieldPage(page.data, fn, before);
    IterationEnds(chain, fn, i, j, seen);
    if !ok {
      return seen, None, 0;
    }
    var following := page.Next(api);
    if following.None? {
      return seen, None, 0;
    }
    if following.value.Err? {
      return seen + [Failure(following.value.error)], None, 1;
    }
    return seen, Some(following.value.value), 1;
  }
}
