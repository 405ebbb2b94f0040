/** Whole lives of a client-credentials source, whose mutex puts its calls in order. */
module CredentialsRuns {
  import opened Base
  import opened Int64
  import opened Token
  import opened TokenMonitor

  /** A call that enters the critical section at now; x is what a fetch would come to. */
  datatype Call = Call(now: int, x: Exchange) {
    /** The last instant the call knows of. */
    function End(): int {
      if x.Answer? then x.mintedAt else now
    }
  }

  /** The clock does not go back within a call or from one to the next. */
  predicate Ordered(calls: seq<Call>, from: int)
    decreases |calls|
  {
    calls != [] ==> from <= calls[0].now <= calls[0].End() && Ordered(calls[1..], calls[0].End())
  }

  /** The instants at which calls made one after the other fetched successfully. */
  function Fetches(t: Option<Token>, calls: seq<Call>): seq<int>
    decreases |calls|
  {
    if calls == [] then []
    else
      var later := Fetches(Refetched(t, calls[0].now, calls[0].x), calls[1..]);
      if !Valid(t, calls[0].now) && Usable(calls[0].x) then [calls[0].x.mintedAt] + later else later
  }

  /** Every token that is granted lives for at least the given time. */
  predicate AllLasting(calls: seq<Call>, life: int) {
    forall k :: 0 <= k < |calls| && calls[k].x.Answer? ==> Lasting(calls[k].x.grant, life)
  }

  /** A cached token minted at the given instant or later, still good for its life less the delta. */
  predicate Holds(t: Option<Token>, minted: int, life: int) {
    t.Some? && t.value.access != "" && (t.value.expiry.Some? ==> t.value.expiry.value >= minted + life)
  }

  /** With a token in the cache, the next successful fetch is its life less the delta away. */
  lemma {:induction false} NextFetch(t: Option<Token>, calls: seq<Call>, minted: int, life: int, from: int)
    requires Holds(t, minted, life) && Ordered(calls, from) && AllLasting(calls, life)
    ensures Fetches(t, calls) != [] ==> Fetches(t, calls)[0] - minted >= life - EXPIRY_DELTA
    decreases |calls|
  {
    if calls != [] && (Valid(t, calls[0].now) || !Usable(calls[0].x)) {
      NextFetch(t, calls[1..], minted, life, calls[0].End());
    }
  }

  predicate Spaced(mints: seq<int>, gap: int) {
    forall k :: 0 <= k < |mints| - 1 ==> mints[k + 1] - mints[k] >= gap
  }

  lemma Gaps(first: int, later: seq<int>, gap: int)
    requires Spaced(later, gap) && (later != [] ==> later[0] - first >= gap)
    ensures Spaced([first] + later, gap)
  {
    var all := [first] + later;
    forall k | 0 <= k < |all| - 1
      ensures all[k + 1] - all[k] >= gap
    {
      assert all[k + 1] == later[k];
      if k > 0 {
        assert all[k] == later[k - 1] && later[k - 1 + 1] - later[k - 1] >= gap;
      }
    }
  }

  lemma {:induction false} GapsKept(t: Option<Token>, calls: seq<Call>, life: int, from: int)
    requires Ordered(calls, from) && AllLasting(calls, life)
    ensures Spaced(Fetches(t, calls), life - EXPIRY_DELTA)
    decreases |calls|
  {
    if calls != [] {
      var c, t' := calls[0], Refetched(t, calls[0].now, calls[0].x);
      GapsKept(t', calls[1..], life, c.End());
      var later := Fetches(t', calls[1..]);
      if !Valid(t, c.now) && Usable(c.x) {
        assert Lasting(c.x.grant, life);
        NextFetch(t', calls[1..], c.x.mintedAt, life, c.End());
        assert Fetches(t, calls) == [c.x.mintedAt] + later;
        Gaps(c.x.mintedAt, later, life - EXPIRY_DELTA);
      } else {
        assert Fetches(t, calls) == later;
      }
    }
  }

  /**
   * If every token granted lasts for at least life, longer than the delta, any two successful
   * fetches of one source are at least life minus the delta apart, however often it is called.
   */
  lemma FetchesAreSpaced(t: Option<Token>, calls: seq<Call>, life: int, from: int, i: nat, j: nat)
    requires Ordered(calls, from) && AllLasting(calls, life) && life > EXPIRY_DELTA
    requires i < j < |Fetches(t, calls)|
    ensures Fetches(t, calls)[j] - Fetches(t, calls)[i] >= life - EXPIRY_DELTA
  {
    GapsKept(t, calls, life, from);
    GapsAddUp(Fetches(t, calls), life - EXPIRY_DELTA, i, j);
  }
}
