/** OAuth tokens and the two caching token sources. Instants are integers, in nanoseconds. */
module Token {
  import opened Base
  import opened Int64

  /** expiry is None when the token never expires. */
  datatype Token = Token(access: string, refresh: string, expiry: Option<int>)

  /** A token response. */
  datatype Grant = Grant(access: string, refresh: string, expiresIn: int64)

  const EXPIRY_DELTA: int := 10 * SECOND

  /** Non-empty, and not about to expire. */
  predicate Valid(t: Option<Token>, now: int) {
    t.Some? && t.value.access != "" && (t.value.expiry.Some? ==> t.value.expiry.value > now + EXPIRY_DELTA)
  }

  /** parseToken: the lifetime is multiplied out in int64 nanoseconds. */
  function Mint(g: Grant, now: int): Token {
    Token(g.access, g.refresh, if g.expiresIn > 0 then Some(now + Seconds(g.expiresIn)) else None)
  }

  /** The previous refresh token is kept when the response does not carry one. */
  function Carry(nt: Token, previous: Token): Token {
    if nt.refresh == "" then nt.(refresh := previous.refresh) else nt
  }

  /**
   * A granted lifetime is the one the token gets if and only if it is at most MAX / SECOND
   * seconds, and such a token is valid when minted exactly if it lasts longer than the delta.
   */
  lemma MintedExpiryIff(g: Grant, now: int)
    requires g.expiresIn > 0
    ensures Mint(g, now).expiry == Some(now + g.expiresIn * SECOND) <==> g.expiresIn <= MAX / SECOND
    ensures g.expiresIn <= MAX / SECOND ==> (Valid(Some(Mint(g, now)), now) <==> g.access != "" && g.expiresIn > 10)
  {
  }

  /**
   * A token with an access token is valid for ever if it was granted no lifetime, and otherwise,
   * for lifetimes that do not overflow, until ten seconds before it expires.
   */
  lemma ValidUntil(g: Grant, minted: int, now: int)
    requires g.expiresIn <= MAX / SECOND
    ensures Valid(Some(Mint(g, minted)), now) <==>
      g.access != "" && (g.expiresIn > 0 ==> now + 10 * SECOND < minted + g.expiresIn * SECOND)
  {
  }

  /** For any lifetime, a fresh token is valid exactly if the low 64 bits of the product say so. */
  lemma MintedValidIff(g: Grant, now: int)
    requires g.expiresIn > 0
    ensures Valid(Some(Mint(g, now)), now) <==>
      g.access != "" && EXPIRY_DELTA < (g.expiresIn * SECOND) % TWO_64 < TWO_63
  {
    WrapIsLowBits(g.expiresIn * SECOND);
  }

  /** A lifetime just above 292 years wraps to the past: the token is never valid. */
  lemma LongLifetimeNeverValid(g: Grant, minted: int, now: int)
    requires g.expiresIn == 9_223_372_037 && minted <= now
    ensures !Valid(Some(Mint(g, minted)), now)
  {
    assert Seconds(g.expiresIn) < 0;
  }

  /** What the token endpoint does with one request, and when its answer is decoded. */
  datatype Exchange = Answer(grant: Grant, mintedAt: int) | Failed

  /** A 2xx answer without an access token is an error as well. */
  predicate Usable(x: Exchange) {
    x.Answer? && x.grant.access != ""
  }

  /** What a caller does in the critical section: reuse the cache, fail, or send the refresh token. */
  datatype Entry = Reuse(token: Token) | NoRefreshToken | Present(refresh: string)

  function Entering(t: Option<Token>, now: int): Entry {
    if Valid(t, now) then Reuse(t.value)
    else if t.None? || t.value.refresh == "" then NoRefreshToken
    else Present(t.value.refresh)
  }

  /** The cache once a refresh has been sent and x come of it. */
  function Renewed(t: Option<Token>, x: Exchange): (r: Option<Token>)
    ensures !Usable(x) ==> r == t
    ensures Usable(x) && t.Some? ==>
      && r.Some? && r.value.access == x.grant.access
      && r.value.refresh == (if x.grant.refresh != "" then x.grant.refresh else t.value.refresh)
      && r.value.expiry == if x.grant.expiresIn > 0 then Some(x.mintedAt + Seconds(x.grant.expiresIn)) else None
  {
    if t.Some? && Usable(x) then Some(Carry(Mint(x.grant, x.mintedAt), t.value)) else t
  }

  /** The source that renews with a refresh token. */
  class RefreshTokenSource {
    var t: Option<Token>

    constructor (t: Option<Token>)
      ensures this.t == t
    {
      this.t := t;
    }

    /**
     * The critical section of Token at instant now. presented is the refresh token sent, if any;
     * x is what came of sending it. The cache changes only together with a success.
     */
    method Token(now: int, x: Exchange) returns (r: Option<Token>, presented: Option<string>)
      modifies this
      ensures match Entering(old(t), now)
              case Reuse(token) => r == Some(token) && t == old(t) && presented == None
              case NoRefreshToken => r == None && t == old(t) && presented == None
              case Present(refresh) =>
                presented == Some(refresh) && t == Renewed(old(t), x) && r == if Usable(x) then t else None
      ensures Valid(old(t), now) || !Usable(x) || presented.None? ==> t == old(t)
      ensures Valid(old(t), now) ==> r == old(t) && presented.None?
      ensures !Valid(old(t), now) ==> (r.Some? <==> presented.Some? && Usable(x)) && (r.Some? ==> r == t)
      ensures !Valid(old(t), now) ==>
        presented == if old(t).Some? && old(t).value.refresh != "" then Some(old(t).value.refresh) else None
      ensures r.Some? && presented.Some? ==> r.value.access == x.grant.access
      ensures old(t).Some? && old(t).value.refresh != "" ==> t.Some? && t.value.refresh != ""
    {
      if Valid(t, now) {
        return t, None;
      }
      if t.None? || t.value.refresh == "" {
        return None, None;
      }
      presented := Some(t.value.refresh);
      if !Usable(x) {
        return None, presented;
      }
      var nt := Mint(x.grant, x.mintedAt);
      if nt.refresh == "" {
        nt := nt.(refresh := t.value.refresh);
      }
      t := Some(nt);
      return t, presented;
    }
  }

  /** The cache of the source below after one call. */
  function Refetched(t: Option<Token>, now: int, x: Exchange): Option<Token> {
    if !Valid(t, now) && Usable(x) then Some(Mint(x.grant, x.mintedAt)) else t
  }

  /** The source that fetches with the client's own credentials. */
  class ClientCredentialsSource {
    var t: Option<Token>

    constructor ()
      ensures t == None
    {
      t := None;
    }

    /** The critical section of Token at instant now: the cache changes only by a successful fetch. */
    method Token(now: int, x: Exchange) returns (r: Option<Token>, fetched: bool)
      modifies this
      ensures fetched == !Valid(old(t), now)
      ensures t == Refetched(old(t), now, x)
      ensures Valid(old(t), now) || !Usable(x) ==> t == old(t)
      ensures !Valid(old(t), now) && Usable(x) ==>
        t == Some(Mint(x.grant, x.mintedAt)) && t.value.access == x.grant.access
      ensures !fetched ==> r == old(t)
      ensures fetched && Usable(x) ==> r == t
      ensures fetched && !Usable(x) ==> r == None
    {
      if Valid(t, now) {
        return t, false;
      }
      if !Usable(x) {
        return None, true;
      }
      t := Some(Mint(x.grant, x.mintedAt));
      return t, true;
    }
  }
}
