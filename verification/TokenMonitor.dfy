/**
 * Many callers of one refreshing token source, interleaved in every way the mutex allows, with
 * a clock that does not go back, a network that may lose any message, and an authorization
 * server that may rotate the refresh token on each use and rejects any but its current one.
 */
module TokenMonitor {
  import opened Base
  import opened Int64
  import opened Token

  datatype Reply = Granted(grant: Grant) | Rejected

  /** Where a caller is inside Token. */
  datatype Phase =
    | Idle
    | Waiting
    | Locked
    | InFlight(presented: string)
    | Answered(presented: string, reply: Reply)
  {
    predicate Critical() {
      Locked? || Refreshing()
    }

    predicate Refreshing() {
      InFlight? || Answered?
    }
  }

  /** used holds every refresh token ever issued. */
  datatype Server = Server(current: string, used: set<string>)

  /** A token handed to a caller, with the grant that answered that call if it refreshed. */
  datatype Return = Return(caller: nat, token: Token, at: int, grant: Option<Grant>)

  /**
   * lost records that the answer to an accepted rotation never reached the cache; presented
   * and mints list the refresh tokens sent and the instants of successful refreshes.
   */
  datatype State = State(
    cache: Option<Token>,
    holder: Option<nat>,
    phases: map<nat, Phase>,
    now: int,
    server: Server,
    lost: bool,
    presented: seq<string>,
    mints: seq<int>,
    handed: seq<Return>)
  {
    function At(c: nat): Phase {
      if c in phases then phases[c] else Idle
    }

    function Move(c: nat, p: Phase): State {
      this.(phases := phases[c := p])
    }

    function CachedRefresh(): string {
      if cache.Some? then cache.value.refresh else ""
    }

    /** Leaves the critical section and Token. */
    function Leave(c: nat): State {
      Move(c, Idle).(holder := None)
    }
  }

  datatype Decision = Rotate(grant: Grant) | Keep(grant: Grant) | Decline

  datatype Action =
    | Enter(c: nat)
    | Acquire(c: nat)
    | Take(c: nat)
    | GiveUp(c: nat)
    | Send(c: nat)
    | Handle(c: nat, decision: Decision)
    | Deliver(c: nat)
    | Lose(c: nat)
    | Tick(d: nat)

  predicate Enabled(s: State, a: Action) {
    match a
    case Enter(c) => s.At(c).Idle?
    case Acquire(c) => s.At(c).Waiting? && s.holder.None?
    case Take(c) => s.At(c).Locked? && Entering(s.cache, s.now).Reuse?
    case GiveUp(c) => s.At(c).Locked? && Entering(s.cache, s.now).NoRefreshToken?
    case Send(c) => s.At(c).Locked? && Entering(s.cache, s.now).Present?
    case Handle(c, decision) =>
      && s.At(c).InFlight?
      && (decision.Rotate? ==> decision.grant.refresh != "" && decision.grant.refresh !in s.server.used)
      && (decision.Keep? ==> decision.grant.refresh == "" || decision.grant.refresh == s.At(c).presented)
    case Deliver(c) => s.At(c).Answered?
    case Lose(c) => s.At(c).Refreshing()
    case Tick(_) => true
  }

  /** The server rejects everything but its current refresh token. */
  function Handled(server: Server, presented: string, d: Decision): (Server, Reply) {
    if presented != server.current || d.Decline? then (server, Rejected)
    else if d.Rotate? then (Server(d.grant.refresh, server.used + {d.grant.refresh}), Granted(d.grant))
    else (server, Granted(d.grant))
  }

  /** Whether dropping the answer loses a refresh token the server now insists on. */
  predicate Rotated(p: Phase) {
    p.Answered? && p.reply.Granted? && p.reply.grant.refresh != "" && p.reply.grant.refresh != p.presented
  }

  function Apply(s: State, a: Action): State
    requires Enabled(s, a)
  {
    match a
    case Enter(c) => s.Move(c, Waiting)
    case Acquire(c) => s.Move(c, Locked).(holder := Some(c))
    case Take(c) => s.Leave(c).(handed := s.handed + [Return(c, Entering(s.cache, s.now).token, s.now, None)])
    case GiveUp(c) => s.Leave(c)
    case Send(c) =>
      var refresh := Entering(s.cache, s.now).refresh;
      s.Move(c, InFlight(refresh)).(presented := s.presented + [refresh])
    case Handle(c, decision) =>
      var (server, reply) := Handled(s.server, s.At(c).presented, decision);
      s.Move(c, Answered(s.At(c).presented, reply)).(server := server)
    case Deliver(c) =>
      var x := ExchangeOf(s.At(c).reply, s.now);
      if Usable(x) && s.cache.Some? then
        var cache := Renewed(s.cache, x);
        s.Leave(c).(
          cache := cache,
          mints := s.mints + [s.now],
          handed := s.handed + [Return(c, cache.value, s.now, Some(x.grant))])
      else
        s.Leave(c).(lost := s.lost || Rotated(s.At(c)))
    case Lose(c) => s.Leave(c).(lost := s.lost || Rotated(s.At(c)))
    case Tick(d) => s.(now := s.now + d)
  }

  /** An answer as the token source sees it, decoded now. */
  function ExchangeOf(reply: Reply, now: int): Exchange {
    if reply.Granted? then Answer(reply.grant, now) else Failed
  }

  ghost predicate Runs(s: State, actions: seq<Action>)
    decreases |actions|
  {
    actions != [] ==> Enabled(s, actions[0]) && Runs(Apply(s, actions[0]), actions[1..])
  }

  ghost function Final(s: State, actions: seq<Action>): State
    requires Runs(s, actions)
    decreases |actions|
  {
    if actions == [] then s else Final(Apply(s, actions[0]), actions[1..])
  }

  /** Nobody is inside Token, the cache holds the server's current refresh token. */
  ghost predicate Initial(s: State) {
    && s.cache.Some? && s.CachedRefresh() != "" && s.CachedRefresh() == s.server.current
    && s.server.current in s.server.used
    && s.holder == None && s.phases == map[] && !s.lost
    && s.presented == [] && s.mints == [] && s.handed == []
  }

  // ---------------------------------------------------------------- the mutex

  /** Only the holder is past the lock, and a refresh presents the cached refresh token. */
  ghost predicate LockInv(s: State) {
    && (forall c: nat :: s.At(c).Critical() <==> s.holder == Some(c))
    && (forall c: nat :: s.At(c).Refreshing() ==>
      s.At(c).presented == s.CachedRefresh() != "" && !Valid(s.cache, s.now))
  }

  lemma LockStep(s: State, a: Action)
    requires LockInv(s) && Enabled(s, a)
    ensures LockInv(Apply(s, a))
  {
    var s' := Apply(s, a);
    if !a.Tick? {
      assert forall c: nat :: c != a.c ==> s'.At(c) == s.At(c);
    } else {
      assert forall c: nat :: s'.At(c) == s.At(c);
    }
  }

  // ---------------------------------------------------------------- rotation

  /** The refresh token the client is about to hold. */
  function Expected(s: State): string {
    if s.holder.Some? && Rotated(s.At(s.holder.value)) then s.At(s.holder.value).reply.grant.refresh
    else s.CachedRefresh()
  }

  /** The client and the server agree exactly as long as no rotation has been lost. */
  ghost predicate SyncInv(s: State) {
    && LockInv(s) && s.CachedRefresh() != ""
    && s.server.current in s.server.used && s.CachedRefresh() in s.server.used
    && (!s.lost <==> Expected(s) == s.server.current)
    && (s.lost ==> s.CachedRefresh() != s.server.current)
    && (forall c: nat :: s.At(c).Answered? && s.lost ==> s.At(c).reply.Rejected?)
    && (forall c: nat :: Rotated(s.At(c)) ==>
      s.At(c).reply.grant.refresh in s.server.used && s.CachedRefresh() != s.server.current)
    && (forall c: nat :: s.At(c).Answered? && s.At(c).reply.Granted? && !Rotated(s.At(c)) ==>
         s.At(c).reply.grant.refresh == "" || s.At(c).reply.grant.refresh == s.CachedRefresh())
  }

  lemma SyncStep(s: State, a: Action)
    requires SyncInv(s) && Enabled(s, a)
    ensures SyncInv(Apply(s, a))
  {
    LockStep(s, a);
    var s' := Apply(s, a);
    if !a.Tick? {
      assert forall c: nat :: c != a.c ==> s'.At(c) == s.At(c);
    } else {
      assert forall c: nat :: s'.At(c) == s.At(c);
    }
  }

  lemma {:induction false} SyncInRuns(s: State, actions: seq<Action>)
    requires SyncInv(s) && Runs(s, actions)
    ensures SyncInv(Final(s, actions))
    decreases |actions|
  {
    if actions != [] {
      SyncStep(s, actions[0]);
      SyncInRuns(Apply(s, actions[0]), actions[1..]);
    }
  }

  lemma InitialSync(s: State)
    requires Initial(s)
    ensures SyncInv(s)
  {
    assert forall c: nat :: s.At(c) == Idle;
  }

  /**
   * In every interleaving at most one refresh is in flight, it presents the cached refresh
   * token, and that token is never lost from the cache.
   */
  lemma OneRefreshInFlight(s: State, actions: seq<Action>, c: nat, d: nat)
    requires Initial(s) && Runs(s, actions)
    ensures var f := Final(s, actions);
            && (f.At(c).Refreshing() && f.At(d).Refreshing() ==> c == d)
            && (f.At(c).Refreshing() ==> f.At(c).presented == f.CachedRefresh())
            && f.CachedRefresh() != ""
  {
    InitialSync(s);
    SyncInRuns(s, actions);
  }

  /**
   * A refresh is sent with the token the server insists on if and only if no answer to an
   * accepted rotation has been lost so far.
   */
  lemma SpendsCurrentIff(s: State, actions: seq<Action>, c: nat)
    requires Initial(s) && Runs(s, actions) && Enabled(Final(s, actions), Send(c))
    ensures Final(s, actions).CachedRefresh() == Final(s, actions).server.current <==> !Final(s, actions).lost
  {
    InitialSync(s);
    SyncInRuns(s, actions);
  }

  /** After a lost rotation no refresh ever succeeds again: the cache stays as it is. */
  lemma {:induction false} LostIsFinal(s: State, actions: seq<Action>)
    requires SyncInv(s) && Runs(s, actions) && s.lost
    ensures Final(s, actions).lost && Final(s, actions).cache == s.cache && Final(s, actions).mints == s.mints
    decreases |actions|
  {
    if actions != [] {
      SyncStep(s, actions[0]);
      LostIsFinal(Apply(s, actions[0]), actions[1..]);
    }
  }

  /** One caller's refresh is accepted, and its answer, which carries a rotated token, is dropped. */
  lemma LostRotationHappens(s: State, g: Grant)
    requires Initial(s) && !Valid(s.cache, s.now)
    requires g.refresh != "" && g.refresh !in s.server.used
    ensures var actions := [Enter(0), Acquire(0), Send(0), Handle(0, Rotate(g)), Lose(0)];
            Runs(s, actions) && Final(s, actions).lost
  {
    var s1 := Apply(s, Enter(0));
    var s2 := Apply(s1, Acquire(0));
    var s3 := Apply(s2, Send(0));
    AnswerLost(s3, g);
    RunsCons(s2, Send(0), [Handle(0, Rotate(g)), Lose(0)]);
    RunsCons(s1, Acquire(0), [Send(0), Handle(0, Rotate(g)), Lose(0)]);
    RunsCons(s, Enter(0), [Acquire(0), Send(0), Handle(0, Rotate(g)), Lose(0)]);
  }

  lemma AnswerLost(s: State, g: Grant)
    requires s.At(0) == InFlight(s.server.current)
    requires g.refresh != "" && g.refresh !in s.server.used && s.server.current in s.server.used
    ensures Runs(s, [Handle(0, Rotate(g)), Lose(0)]) && Final(s, [Handle(0, Rotate(g)), Lose(0)]).lost
  {
    var s' := Apply(s, Handle(0, Rotate(g)));
    RunsCons(s', Lose(0), []);
    RunsCons(s, Handle(0, Rotate(g)), [Lose(0)]);
  }

  lemma RunsCons(s: State, a: Action, rest: seq<Action>)
    requires Enabled(s, a) && Runs(Apply(s, a), rest)
    ensures Runs(s, [a] + rest) && Final(s, [a] + rest) == Final(Apply(s, a), rest)
  {
    assert ([a] + rest)[1..] == rest;
  }

  /** Without a refresh token in the cache no refresh is ever sent, and once it expires every call fails. */
  lemma {:induction false} NothingWithoutRefresh(s: State, actions: seq<Action>)
    requires LockInv(s) && s.CachedRefresh() == "" && Runs(s, actions)
    ensures var f := Final(s, actions);
            && f.cache == s.cache && f.presented == s.presented && f.mints == s.mints
            && (!Valid(s.cache, s.now) ==> f.handed == s.handed)
    decreases |actions|
  {
    if actions != [] {
      LockStep(s, actions[0]);
      NothingWithoutRefresh(Apply(s, actions[0]), actions[1..]);
    }
  }

  // ---------------------------------------------------------------- what callers get

  /** The token the given grant makes at that instant, but for the refresh token if it brought none. */
  predicate MintedFrom(t: Token, g: Grant, at: int) {
    && t.access == g.access != ""
    && t.expiry == (if g.expiresIn > 0 then Some(at + Seconds(g.expiresIn)) else None)
    && (g.refresh != "" ==> t.refresh == g.refresh)
  }

  /**
   * Every token handed out was valid then, or was minted at that very instant from the grant that
   * answered the call.
   */
  ghost predicate HandedInv(s: State) {
    forall k :: 0 <= k < |s.handed| ==>
      var h := s.handed[k];
      if h.grant.Some? then h.at in s.mints && MintedFrom(h.token, h.grant.value, h.at) else Valid(Some(h.token), h.at)
  }

  lemma HandedStep(s: State, a: Action)
    requires HandedInv(s) && Enabled(s, a)
    ensures HandedInv(Apply(s, a))
  {
  }

  /** A usable answer to a caller's refresh is handed to that caller, and kept for the others. */
  lemma DeliverHands(s: State, c: nat)
    requires s.cache.Some? && s.At(c).Answered? && s.At(c).reply.Granted? && s.At(c).reply.grant.access != ""
    ensures var g, s' := s.At(c).reply.grant, Apply(s, Deliver(c));
            && s'.cache.Some? && MintedFrom(s'.cache.value, g, s.now)
            && (g.refresh == "" ==> s'.CachedRefresh() == s.CachedRefresh())
            && s'.handed == s.handed + [Return(c, s'.cache.value, s.now, Some(g))]
            && s'.mints == s.mints + [s.now]
  {
  }

  /** A refresh that fails, is declined or is lost hands out nothing and leaves the cache as it was. */
  lemma FailureChangesNothing(s: State, a: Action)
    requires Enabled(s, a) && (a.Lose? || a.GiveUp? || (a.Deliver? && !Usable(ExchangeOf(s.At(a.c).reply, s.now))))
    ensures var s' := Apply(s, a);
            s'.cache == s.cache && s'.handed == s.handed && s'.mints == s.mints && s'.holder == None
  {
  }

  lemma {:induction false} HandedInRuns(s: State, actions: seq<Action>)
    requires HandedInv(s) && Runs(s, actions)
    ensures HandedInv(Final(s, actions))
    decreases |actions|
  {
    if actions != [] {
      HandedStep(s, actions[0]);
      HandedInRuns(Apply(s, actions[0]), actions[1..]);
    }
  }

  // ---------------------------------------------------------------- spacing

  /** The token lives for at least the given time, or for ever. */
  predicate Lasting(g: Grant, life: int) {
    g.expiresIn <= 0 || Seconds(g.expiresIn) >= life
  }

  ghost predicate LastingActions(actions: seq<Action>, life: int) {
    forall k :: 0 <= k < |actions| && actions[k].Handle? && !actions[k].decision.Decline? ==>
      Lasting(actions[k].decision.grant, life)
  }

  ghost predicate SpaceInv(s: State, life: int) {
    && LockInv(s)
    && (forall i :: 0 <= i < |s.mints| - 1 ==> s.mints[i + 1] - s.mints[i] >= life - EXPIRY_DELTA)
    && (forall i :: 0 <= i < |s.mints| ==> s.mints[i] <= s.now)
    && (|s.mints| > 0 ==>
         && s.cache.Some? && s.cache.value.access != ""
         && (s.cache.value.expiry.Some? ==> s.cache.value.expiry.value >= s.mints[|s.mints| - 1] + life))
    && (forall c: nat :: s.At(c).Answered? && s.At(c).reply.Granted? ==> Lasting(s.At(c).reply.grant, life))
  }

  lemma SpaceStep(s: State, a: Action, life: int)
    requires SpaceInv(s, life) && Enabled(s, a) && LastingActions([a], life)
    ensures SpaceInv(Apply(s, a), life)
  {
    LockStep(s, a);
    if a.Deliver? {
      SpaceDelivered(s, a, life);
    } else {
      var s' := Apply(s, a);
      assert LastingActions([a], life) ==> a == [a][0];
      if !a.Tick? {
        assert forall c: nat :: c != a.c ==> s'.At(c) == s.At(c);
      } else {
        assert forall c: nat :: s'.At(c) == s.At(c);
      }
    }
  }

  lemma SpaceDelivered(s: State, a: Action, life: int)
    requires SpaceInv(s, life) && Enabled(s, a) && a.Deliver? && LockInv(Apply(s, a))
    ensures SpaceInv(Apply(s, a), life)
  {
    var s' := Apply(s, a);
    assert forall c: nat :: c != a.c ==> s'.At(c) == s.At(c);
    assert !Valid(s.cache, s.now);
  }

  lemma {:induction false} SpaceInRuns(s: State, actions: seq<Action>, life: int)
    requires SpaceInv(s, life) && Runs(s, actions) && LastingActions(actions, life)
    ensures SpaceInv(Final(s, actions), life)
    decreases |actions|
  {
    if actions != [] {
      assert [actions[0]][0] == actions[0];
      SpaceStep(s, actions[0], life);
      SpaceInRuns(Apply(s, actions[0]), actions[1..], life);
    }
  }

  lemma {:induction false} GapsAddUp(mints: seq<int>, gap: int, i: nat, j: nat)
    requires gap >= 0 && i < j < |mints|
    requires forall k :: 0 <= k < |mints| - 1 ==> mints[k + 1] - mints[k] >= gap
    ensures mints[j] - mints[i] >= gap
    decreases j
  {
    if i < j - 1 {
      GapsAddUp(mints, gap, i, j - 1);
    }
  }

  /**
   * If every token granted lasts for at least life, longer than the delta, any two successful
   * refreshes are at least life minus the delta apart, in every interleaving.
   */
  lemma RefreshesAreSpaced(s: State, actions: seq<Action>, life: int, i: nat, j: nat)
    requires Initial(s) && Runs(s, actions) && LastingActions(actions, life) && life > EXPIRY_DELTA
    requires i < j < |Final(s, actions).mints|
    ensures Final(s, actions).mints[j] - Final(s, actions).mints[i] >= life - EXPIRY_DELTA
  {
    InitialSync(s);
    SpaceInRuns(s, actions, life);
    GapsAddUp(Final(s, actions).mints, life - EXPIRY_DELTA, i, j);
  }
}
