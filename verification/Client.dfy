/** The client object, its option setters and the retry loop, proved against the run specification. */
module Client {
  import opened Backoff
  import opened Base
  import opened Executor
  import opened Int64

  /** A body reader: what is left to read. */
  class Reader {
    var rest: seq<byte>

    constructor (content: seq<byte>)
      ensures rest == content
    {
      rest := content;
    }
  }

  /** A request with a buffered payload. The body reader is consumed by each send. */
  class Request {
    const verb: string
    const url: string
    const payload: Option<seq<byte>>
    var headers: Headers
    var body: Reader?

    /** newRequest: the first reader holds the payload, which GetBody can rebuild. */
    constructor (verb: string, url: string, headers: Headers, payload: Option<seq<byte>>)
      ensures AsCall() == Call(verb, url, headers, payload)
      ensures Ready()
      ensures body != null ==> fresh(body)
    {
      this.verb, this.url, this.payload, this.headers := verb, url, payload, headers;
      if payload.Some? {
        var reader := new Reader(payload.value);
        body := reader;
      } else {
        body := null;
      }
    }

    function AsCall(): Call
      reads this
    {
      Call(verb, url, headers, payload)
    }

    /** The reader is at the start of the payload. */
    ghost predicate Ready()
      reads this, body
    {
      (body != null <==> payload.Some?) && (payload.Some? ==> body.rest == payload.value)
    }

    /** The request is still the call but for Authorization; only a first attempt relies on the reader. */
    ghost predicate Carries(call: Call, attempt: nat)
      reads this, body
    {
      && call == AsCall().(headers := call.headers)
      && headers - {Authorization} == call.headers - {Authorization}
      && (body != null <==> payload.Some?)
      && (attempt == 0 ==> Ready())
    }

    method GetBody() returns (reader: Reader)
      requires payload.Some?
      ensures fresh(reader) && reader.rest == payload.value
    {
      reader := new Reader(payload.value);
    }
  }

  /** Everything outside the client, following the fates; events records what the client does to it. */
  class Environment {
    const fates: Fates
    var cursor: nat
    var events: seq<Event>

    constructor (fates: Fates)
      ensures this.fates == fates && cursor == 0 && events == []
    {
      this.fates, this.cursor, this.events := fates, 0, [];
    }

    /** Sets the Authorization header, or fails. */
    method Authenticate(f: Fate, req: Request) returns (ok: bool)
      modifies this`events, req`headers
      ensures ok <==> f.credential.Some?
      ensures ok ==> events == old(events) + [Authenticated(f.credential.value)]
      ensures ok ==> req.headers == old(req.headers)[Authorization := f.credential.value]
      ensures !ok ==> events == old(events) && req.headers == old(req.headers)
    {
      ok := f.credential.Some?;
      if ok {
        req.headers := req.headers[Authorization := f.credential.value];
        events := events + [Authenticated(f.credential.value)];
      }
    }

    /** Sends the request as it stands, the body taken from what its reader still holds. */
    method RoundTrip(f: Fate, req: Request) returns (reply: Option<Reply>)
      modifies this`events, req.body
      ensures f.ctxAtSend ==> reply == None && events == old(events)
      ensures !f.ctxAtSend ==>
        var wire := Wire(req.verb, req.url, req.headers, if req.body == null then [] else old(req.body.rest));
        if f.net.Delivered? then
          reply == Some(f.net.reply) && events == old(events) + [Sent(wire, true), Received(f.net.reply)]
        else
          reply == None && events == old(events) + [Sent(wire, f.net.ReplyLost?)]
    {
      if f.ctxAtSend {
        return None;
      }
      var content := [];
      if req.body != null {
        content := req.body.rest;
        req.body.rest := if f.net.Unsent? then content[Min(f.net.read, |content|)..] else [];
      }
      events := events + [Sent(Wire(req.verb, req.url, req.headers, content), !f.net.Unsent?)];
      if !f.net.Delivered? {
        return None;
      }
      events := events + [Received(f.net.reply)];
      return Some(f.net.reply);
    }

    method CloseBody()
      modifies this`events
      ensures events == old(events) + [Closed]
    {
      events := events + [Closed];
    }

    /** Reads what is left of a body and closes it. */
    method Drain()
      modifies this`events
      ensures events == old(events) + [Closed]
    {
      CloseBody();
    }

    /** Sleeps, reporting whether the timer won over the context. */
    method Sleep(f: Fate, d: int64) returns (ok: bool)
      modifies this`events
      ensures events == old(events) + [Slept(d)] && ok == !f.ctxAtWait
    {
      events := events + [Slept(d)];
      ok := !f.ctxAtWait;
    }
  }

  class Client {
    var maxRetries: int
    var retryWaitMin: int64
    var retryWaitMax: int64

    constructor ()
      ensures AsPolicy() == DEFAULT_POLICY && Valid()
    {
      maxRetries, retryWaitMin, retryWaitMax := 2, 500_000_000, 30 * SECOND;
    }

    function AsPolicy(): Policy
      reads this
    {
      Policy(maxRetries, retryWaitMin, retryWaitMax)
    }

    predicate Valid()
      reads this
    {
      AsPolicy().Valid()
    }

    /** Rejects a negative count and then changes nothing. */
    method WithMaxRetries(n: int) returns (ok: bool)
      requires Valid()
      modifies this
      ensures Valid() && ok == (n >= 0)
      ensures AsPolicy() == if ok then old(AsPolicy()).(maxRetries := n) else old(AsPolicy())
    {
      if n < 0 {
        return false;
      }
      maxRetries := n;
      return true;
    }

    /** Rejects bounds that are not 0 < min <= max and then changes nothing. */
    method WithRetryWaitBounds(minWait: int64, maxWait: int64) returns (ok: bool)
      requires Valid()
      modifies this
      ensures Valid() && ok == (0 < minWait <= maxWait)
      ensures AsPolicy() == if ok then Policy(old(maxRetries), minWait, maxWait) else old(AsPolicy())
    {
      if minWait <= 0 || maxWait <= 0 || minWait > maxWait {
        return false;
      }
      retryWaitMin, retryWaitMax := minWait, maxWait;
      return true;
    }

    /** The backoff for one attempt; draw is reduced to the range of the random source. */
    method Backoff(attempt: nat, draw: nat) returns (wait: int64)
      requires Valid()
      ensures wait == Wait(AsPolicy(), attempt, draw)
      ensures retryWaitMin <= wait <= retryWaitMax
    {
      WaitWithinBounds(AsPolicy(), attempt, draw);
      var d := Shl(retryWaitMin, attempt);
      if d <= 0 || d > retryWaitMax {
        d := retryWaitMax;
      }
      var span := Wrap(d - retryWaitMin);
      if span <= 0 {
        return retryWaitMin;
      }
      return Wrap(retryWaitMin + draw % (span + 1));
    }

    /** Waits before the next attempt, reporting whether the context stayed alive. */
    method WaitRetry(env: Environment, f: Fate, attempt: nat, reply: Option<Reply>) returns (ok: bool)
      requires Valid()
      modifies env`events
      ensures ok == !f.ctxAtWait
      ensures var asked := if reply.Some? then RetryAfter(reply.value.retryAfter, reply.value.until) else 0;
              env.events == old(env.events) + [Slept(RetryWait(AsPolicy(), attempt, f.draw, asked))]
    {
      var wait := Backoff(attempt, f.draw);
      if reply.Some? && RetryAfter(reply.value.retryAfter, reply.value.until) > 0 {
        wait := RetryAfter(reply.value.retryAfter, reply.value.until);
        if wait > retryWaitMax {
          wait := retryWaitMax;
        }
      }
      ok := env.Sleep(f, wait);
    }

    /** After a transport error: give up on a done context, wait for a retry, or report the failure. */
    method HandleError(env: Environment, attempt: nat, f: Fate) returns (outcome: Option<Outcome>)
      requires Valid() && attempt <= maxRetries
      modifies env`events
      ensures var step := AfterError(AsPolicy(), attempt, f);
              env.events == old(env.events) + step.events && outcome == step.outcome
    {
      if f.ctxAtSend || f.ctxAfter {
        return Some(Canceled);
      }
      if attempt < maxRetries {
        var ok := WaitRetry(env, f, attempt, None);
        return if ok then None else Some(WaitCanceled(None));
      }
      return Some(TransportFailed);
    }

    /** After a response: wait for a retry on a temporary status, or report the error or the body. */
    method HandleReply(env: Environment, attempt: nat, f: Fate, reply: Reply) returns (outcome: Option<Outcome>)
      requires Valid() && attempt <= maxRetries
      modifies env`events
      ensures var step := AfterReply(AsPolicy(), attempt, f, reply);
              env.events == old(env.events) + step.events && outcome == step.outcome
    {
      var failed := !Success(reply.status);
      if failed && Temporary(reply.status) && attempt < maxRetries {
        env.Drain();
        var ok := WaitRetry(env, f, attempt, Some(reply));
        return if ok then None else Some(WaitCanceled(Some(reply)));
      }
      if failed {
        env.Drain();
        return Some(Failed(reply));
      }
      var decoded := DecodeBody(env, f);
      return Some(if decoded then Succeeded(reply) else DecodeFailed(reply));
    }

    /** Decodes a successful body, or fails to, and closes it either way. */
    method DecodeBody(env: Environment, f: Fate) returns (ok: bool)
      modifies env`events
      ensures ok == f.decodeOk && env.events == old(env.events) + [Closed]
    {
      ok := f.decodeOk;
      env.CloseBody();
    }

    /** One pass of the retry loop: None asks for another attempt. */
    method TryOnce(env: Environment, req: Request, ghost call: Call, attempt: nat, f: Fate, ghost step: Step)
      returns (outcome: Option<Outcome>)
      requires Valid() && attempt <= maxRetries && req.Carries(call, attempt)
      requires step == Attempt(AsPolicy(), call, attempt, f)
      modifies env`events, req`headers, req`body, req.body
      ensures req.body == old(req.body) || fresh(req.body)
      ensures req.Carries(call, attempt + 1)
      ensures outcome == step.outcome
      ensures env.events == old(env.events) + step.events
    {
      if attempt > 0 && req.payload.Some? {
        if !f.rewindOk {
          return Some(RewindFailed);
        }
        var reader := req.GetBody();
        req.body := reader;
      }
      var authenticated := env.Authenticate(f, req);
      if !authenticated {
        return Some(AuthFailed);
      }
      SameButOne(old(req.headers), call.headers, Authorization, f.credential.value);
      var reply := env.RoundTrip(f, req);
      ghost var es := Opening(call, f);
      assert env.events == old(env.events) + es;
      if reply.None? {
        outcome := HandleError(env, attempt, f);
        ConcatAssociative(old(env.events), es, AfterError(AsPolicy(), attempt, f).events);
      } else {
        outcome := HandleReply(env, attempt, f, reply.value);
        ConcatAssociative(old(env.events), es, AfterReply(AsPolicy(), attempt, f, reply.value).events);
      }
    }

    /** TryOnce, with its effect on the run as a whole. */
    method Advance(
        env: Environment, req: Request, ghost call: Call, ghost base: nat, ghost whole: Run,
        ghost before: seq<Event>, ghost done: seq<seq<Event>>, attempt: nat)
      returns (outcome: Option<Outcome>, ghost attempts: seq<seq<Event>>)
      requires Valid() && attempt == |done| <= maxRetries && req.Carries(call, attempt)
      requires env.cursor == base + attempt && env.events == before + Flatten(done)
      requires Pending(whole, done, AsPolicy(), call, env.fates, base)
      modifies env`events, env`cursor, req`headers, req`body, req.body
      ensures req.body == old(req.body) || fresh(req.body)
      ensures req.Carries(call, attempt + 1)
      ensures |attempts| == attempt + 1 && env.cursor == base + attempt + 1
      ensures env.events == before + Flatten(attempts)
      ensures outcome.None? ==> attempt < maxRetries && Pending(whole, attempts, AsPolicy(), call, env.fates, base)
      ensures outcome.Some? ==> whole == Run(attempts, outcome.value)
    {
      var f := env.fates(env.cursor);
      ghost var step := Attempt(AsPolicy(), call, attempt, f);
      PendingStep(whole, done, AsPolicy(), call, env.fates, base, step);
      ConcatAssociative(before, Flatten(done), step.events);
      env.cursor := env.cursor + 1;
      attempts := done + [step.events];
      outcome := TryOnce(env, req, call, attempt, f, step);
    }

    /**
     * Executes a request with retries. The run it performs on the environment is the specified
     * one, in which every attempt sends the whole payload and changes only Authorization.
     */
    method Do(env: Environment, req: Request) returns (outcome: Outcome, ghost attempts: seq<seq<Event>>)
      requires Valid() && req.Ready()
      modifies env`events, env`cursor, req, req.body
      ensures Run(attempts, outcome) == RunOf(AsPolicy(), old(req.AsCall()), env.fates, old(env.cursor))
      ensures env.events == old(env.events) + Flatten(attempts)
      ensures env.cursor == old(env.cursor) + |attempts|
    {
      ghost var call, base := req.AsCall(), env.cursor;
      ghost var whole := RunOf(AsPolicy(), call, env.fates, base);
      var attempt := 0;
      attempts := [];
      while true
        invariant 0 <= attempt == |attempts| <= maxRetries && env.cursor == base + attempt
        invariant req.body == old(req.body) || fresh(req.body)
        invariant req.Carries(call, attempt)
        invariant env.events == old(env.events) + Flatten(attempts)
        invariant Pending(whole, attempts, AsPolicy(), call, env.fates, base)
        decreases maxRetries - attempt
      {
        var result;
        result, attempts := Advance(env, req, call, base, whole, old(env.events), attempts, attempt);
        if result.Some? {
          return result.value, attempts;
        }
        attempt := attempt + 1;
      }
    }
  }

  lemma SameButOne(a: Headers, b: Headers, key: HeaderName, value: string)
    requires a - {key} == b - {key}
    ensures a[key := value] == b[key := value]
    ensures a[key := value] - {key} == a - {key}
  {
    forall k | k != key
      ensures k in a <==> k in b
      ensures k in a ==> a[k] == b[k]
    {
      assert k in a <==> k in a - {key};
      assert k in b <==> k in b - {key};
      assert k in a ==> (a - {key})[k] == a[k];
    }
  }
}
