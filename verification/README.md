# Verified model of the Warmbly Go client

The machines of the Warmbly API client that loop, keep state or do arithmetic, modelled in Dafny
and proved correct as far as they are. Each module takes the form of the code it models: objects
with fields are classes whose methods are proved against functions on values, and what the code
is for is proved about those functions, over all inputs, runs and interleavings.

- **Executor** (`Int64`, `Decimal`, `Backoff`, `Executor`, `Outcomes`, `Client`). The retry loop of the HTTP
  client as a method on a heap of request, body reader and environment. A run is driven by fates
  that fix everything outside the client: credentials, network, answers, context, random draws.
- **At-most-once** (`Idempotency`). Those runs against a server that answers a repeated
  Idempotency-Key from its store, over a network that loses requests and answers.
- **Event streams** (`EventStream`, `EventEncoding`). The scan loop over one reused buffer,
  against a parser by blocks and an encoder. As in the code, and unlike section 9.2.6 of the HTML
  Standard, several data lines are joined without LF and an unterminated final event is delivered.
- **Pagination** (`Pagination`, `Pages`, `CursorListing`, `Keyset`). Page objects, their fetch
  closures, the iterator, listings paged by an opaque cursor, and form submissions paged by the
  timestamp of the last row.
- **Webhooks** (`Webhook`, `WebhookFields`, `WebhookProofs`). Printing, parsing and verifying the signature
  header, with the keyed hash of RFC 2104 as any function to 32 bytes.
- **Tokens** (`Token`, `TokenMonitor`, `CredentialsRuns`). The two caching token sources as
  classes, their whole lives, and the refreshing one as a monitor with many callers, a clock, a
  lossy network and a server that rotates refresh tokens as section 6 of RFC 6749 allows.
- **Polling** (`CliAuth`, `PoolLink`, `PoolLinkProofs`). The two device-code loops. The second
  runs on the executor itself, so what it sees is what the retries let through.
- **WebSocket** (`WsFrame`, `WsConn`, `WsEndings`). Frames to the byte (section 5.2 of
  RFC 6455), the reassembly of messages with interleaved control frames, and every other end.
- **Realtime gateway** (`Gateway`, `GatewayResume`, `GatewayRuns`). Position, dispatch queue and
  resumption over any number of connections.

## Where the code and its documentation differ

The model follows the code. Each point has a lemma.

- `client.go` multiplies a Retry-After in seconds into an int64 of nanoseconds. It is the delay
  that was asked for exactly when the product fits (`Backoff.RetryAfterExactIff`). The same
  product can make a token invalid from the start (`Token.LongLifetimeNeverValid`) and a CLI poll
  immediate (`CliAuth.ExtraCanSpin`); `Token.MintedExpiryIff` and `CliAuth.AskedHonoredIff` are exact.
- The shifted backoff can fall below the minimum for extreme bounds (`Backoff.CeilingCanCollapse`);
  the wait itself stays within bounds, and the exact condition is `Backoff.CeilingIdealIff`.
- `forms.go` says a page boundary neither skips nor repeats rows. Rows of one timestamp on both
  sides of a boundary are skipped; the walk is complete if and only if there are none
  (`Keyset.SubmissionsEnumerated`).
- A refreshing token source is stranded for good by one lost answer to an accepted rotation, and
  by nothing else (`TokenMonitor.SpendsCurrentIff`, `TokenMonitor.LostIsFinal`).
- A pool-link wait loses the token together with the answer that carried it, since the executor's
  retry then finds a spent code (`PoolLinkProofs.TokenCollectedIff`). With an Idempotency-Key among
  its options, and a server that honours it on this route, it never sees an approval after a
  pending first answer (`PoolLinkProofs.KeyedWaitStuck`).
- `WaitForCLIAuth` returns without an error on any status but pending and denied
  (`CliAuth.WaitForCliAuth`).
- The freshness window of a webhook saturates: the largest tolerance accepts every older delivery
  (`WebhookProofs.CheckDelivery`). A timestamp past the range of time.Time is read as a distant past
  one (`WebhookProofs.InstantExactIff`).
- `gateway/doc.go` says a brief disconnect does not lose events. It does lose them if the
  connection ends after a live event has overtaken an unfinished replay, or behind a position a
  resumed marker reported, if the queue was full, or if the position was still zero; these are the
  only ways (`GatewayRuns.NothingMissingIff`).
- `readFrame` rejects a negative length for data but not for control frames, where allocating the
  buffer panics (`WsFrame.BadLengthIff`).

## Model

| member | source | states |
|---|---|---|
| `Client.Client.constructor` | client.go:153-175 | A new client has the default policy, which is valid. |
| `Client.Client.WithMaxRetries` | options.go:114-122 | A negative count is refused and changes nothing; otherwise only the count changes; the policy stays valid. |
| `Client.Client.WithRetryWaitBounds` | options.go:125-134 | Bounds are accepted exactly when 0 < min <= max; a refusal changes nothing. |
| `Client.Request.constructor` | client.go:362-390 | The payload is buffered and the first reader stands at its start. |
| `Client.Client.Backoff` | client.go:487-498 | The int64 computation gives the specified wait, which lies between min and max. |
| `Client.Client.WaitRetry` | client.go:467-483 | Sleeps once: for a positive Retry-After capped at the maximum, else for the backoff. |
| `Client.Client.TryOnce` | client.go:410-462 | One pass of the loop does exactly the specified attempt to the environment, and leaves the request the same call but for Authorization. |
| `Client.Client.HandleReply` | client.go:440-460 | After a response: a body drained before the wait for a retry, drained before an error is returned, or closed by its decoding; the events and the outcome are the specified ones in each case. |
| `Client.Client.Do` | client.go:410-462 | The loop performs exactly the specified run, consuming one fate per attempt. |
| `Backoff.WaitWithinBounds` | client.go:487-498 | For any attempt and valid bounds, min <= wait <= max and no difference or sum wraps. |
| `Backoff.WaitReachedIff` | client.go:492-497 | The draw decides the wait by its residue alone, each value from the minimum to the ceiling by its own. |
| `Backoff.EveryWaitReached` | client.go:492-497 | Every value from the minimum to the ceiling is the wait for some draw. |
| `Backoff.CeilingIdealIff` | client.go:488-491 | The jitter ceiling equals the clamped unbounded exponential if and only if the shift did not wrap into the open interval from 0 to max. |
| `Backoff.CeilingIdealForBounds` | client.go:488-491 | With min = m * 2^v and m * max <= 2^63 the ceiling is ideal for every attempt. |
| `Backoff.DefaultsIdeal` | client.go:165-166 | For 500 ms and 30 s the ceiling is min(500 ms * 2^n, 30 s) for every n. |
| `Backoff.CeilingCanCollapse` | client.go:488-491 | Valid bounds for which the third ceiling is 4 ns instead of the maximum. |
| `Backoff.RetryWaitWithinBounds` | client.go:467-483 | Whatever the Retry-After value, the wait is positive and at most the maximum. |
| `Backoff.RetryAfterExactIff` | client.go:523-531 | For every header that reads as a number of seconds, signs and leading zeros included, the delay taken is the one asked for if and only if the product fits a Duration. |
| `Backoff.RetryAfterCanShrink` | client.go:523-531 | A header that asks for 2^64 + d nanoseconds is taken as d. |
| `Backoff.RetryAfterDate` | client.go:526-530 | A Retry-After that is not a number is the distance of its date, or none if that has passed or is no date. |
| `Backoff.RetryAfterWins` | client.go:468-474 | A positive Retry-After replaces the backoff, up to the maximum; any other leaves it. |
| `Executor.RunLanguage` | client.go:410-462 | Every run makes at most maxRetries+1 attempts; all but the last ended in a transport error or a temporary status and a proper wait; the last one has the shape its outcome demands; each send follows one authentication, carries the whole payload, and each received body is closed once. |
| `Executor.RunAccounting` | client.go:410-483 | Over a run: at most maxRetries+1 sends, no body left open, total sleep at most maxRetries * max. |
| `Executor.NoSendAfterCancel` | client.go:427-436 | If the context, once done in an attempt of a run, stays done for its later attempts, none of them sends anything. |
| `Outcomes.RunDecides` | client.go:410-462 | A run goes on after an attempt if and only if it failed with a transport error and a live context, or with 429 or at least 500, retries are left and the wait survives the context; and each outcome occurs if and only if the last attempt met its condition. |
| `Outcomes.RunDoes` | client.go:410-483 | Each attempt authenticates, sends the verb, URL, headers and whole payload of the call with its own credential, closes what it receives, and sleeps for the capped Retry-After or the drawn backoff if it may be retried; and does nothing else. |
| `Idempotency.AtMostOnce` | client.go:268-276 | However often a keyed call is repeated and whatever is lost, the server performs it at most once, and not at all if its response is stored. |
| `Idempotency.SuccessMeansOnce` | client.go:268-276 | A keyed run on a new key that reports success was performed exactly once. |
| `Idempotency.UnkeyedBound` | client.go:410-462 | Without a key a call is performed at most maxRetries+1 times. |
| `Idempotency.UnkeyedBoundAttained` | client.go:427-442 | When every answer is lost and every request performed, that bound is reached. |
| `Idempotency.RunSendsOneIdent` | client.go:411-425 | All requests of a run have one key, method, URL and body: retries change only Authorization. |
| `EventStream.Slice.Append` | client.go:681-683 | Appending in place or by reallocation gives the concatenation. |
| `EventStream.Scanner.Scan` | client.go:668-672 | Each scan returns the next line without its LF and one CR, until none is left or one fills the 1 MiB buffer, which is reported. |
| `EventStream.Stream` | client.go:666-694 | The loop over the reused buffer hands the callback exactly the payloads of the block parser, up to its first refusal; it is stopped if and only if an event ended by a blank line is refused, and ends else with the context's error, a read error for a failed read or a line that is too long, or none. |
| `EventStream.RemainingIsParse` | client.go:666-693 | Accumulating line by line from an empty buffer agrees with splitting into blocks between blank lines. |
| `EventEncoding.ParseEncoded` | client.go:666-693 | Parsing undoes encoding, of lines that fit the scanner's buffer, with other lines, optional spaces, CR LF endings, several data lines and a missing final blank line or LF; an event without data is not delivered. |
| `EventEncoding.SimpleRoundTrip` | client.go:666-693 | Non-empty payloads without CR or LF, each sent as one data line and a blank line, come back as they were if and only if each line fits the scanner's buffer; else those before the first that does not. |
| `EventEncoding.TooLongIff` | client.go:668-669 | A stream of plain payloads is reported as too long if and only if the line of one of them fills 1 MiB. |
| `EventEncoding.EncodedTerminated` | client.go:673-689 | The events ended by a blank line are exactly those encoded with one. |
| `EventEncoding.DeliveredStops` | client.go:674-690 | The callback sees a prefix that ends at its first refusal or at the end. |
| `Pages.CloneValues` | pagination.go:167-173 | A fresh map with the same entries, every list of values in it a new one; the original map and lists are not touched. |
| `Pages.ListPage` | pagination.go:127-157 | One request with the given query makes a page that is the specified function of the answer. |
| `Pages.Page.Fetch` | forms.go:671-675 | The closure asks with a deep copy of its page's query in which only the cursor key is set; the new page shares neither map nor list with any earlier one, and no earlier one changes. |
| `Pages.Page.Next` | pagination.go:84-89 | Next is the following page of the chain, its error, or none, and then nothing is asked. |
| `Pages.All` | pagination.go:101-122 | The iterator yields the offer of the chain of pages up to the first refusal, and asks exactly the queries of the pages it needed; the first page and its query stay as they were. |
| `Pagination.IterationEnds` | pagination.go:105-119 | The loop's exits are those of an iteration: everything accepted, or stopped at the first refusal, with a page fetched only when all items before it were accepted. |
| `Pagination.QueriesKeepFilters` | pagination.go:127-157 | The n-th page is asked for with the first query, only the cursor replaced by the non-empty cursor of the page before. |
| `Pagination.WalkFrom` | pagination.go:84-89 | Following Next page by page traverses the chain; its last page says there are no more, or fails with the chain's one error. |
| `Pagination.ChainIsAnswers` | pagination.go:84-89 | Each further page holds the data and has_more of the answer to the query before it; the chain goes on exactly while there is more, a cursor, and an answer, and ends with an error exactly if its last query was answered with one. |
| `Pagination.EmptyPageStops` | forms.go:667-670 | A keyset page without rows is followed by none, whatever has_more says. |
| `CursorListing.NextPage` | pagination.go:127-141 | With a server that takes the cursor for a position, a page with rows left is followed by the page that starts where it ends, and the last one by none even if it carries a cursor. |
| `CursorListing.AllRowsSeen` | pagination.go:101-141 | Listing from any cursor, with any page size and filters, is finite and without an error, and shows an accepting consumer of All exactly the rows from there on, each once and in order. |
| `CursorListing.BadCursorFails` | pagination.go:127-131 | A request the server rejects is the error of the listing. |
| `Keyset.NextPage` | forms.go:664-675 | A page with rows left is followed by the page of exactly the rows older than its last. |
| `Keyset.WalkYields` | forms.go:653-677 | The chain is finite and ends without an error, because the rows older than the cursor strictly shrink. |
| `Keyset.CompleteIff` | forms.go:484-488 | The walk yields every row once and in order if and only if no page boundary splits rows of one timestamp. |
| `Keyset.SubmissionsEnumerated` | forms.go:653-677 | The pages from any start are a finite chain without an error, and hold exactly the rows after the start, newest first, if and only if no page boundary splits a tie. |
| `Keyset.AllSubmissionsSeen` | pagination.go:101-122 | A consumer of All over the submissions that accepts every item sees exactly the rows after the start, each once and newest first, if and only if no page boundary splits a tie. |
| `Keyset.DistinctIsClean` | forms.go:484-488 | Pairwise distinct timestamps have no tie to split. |
| `Keyset.TieLosesRow` | forms.go:484-488 | Three rows of one instant and pages of two: the third is never yielded. |
| `Decimal.RoundTrip` | webhooks.go:624-626 | Parsing a printed int64 gives it back, for negative ones too. |
| `Decimal.ParsedIff` | webhooks.go:671 | Exactly an optional sign followed by digits whose decimal value fits an int64 is parsed, to that value. |
| `Webhook.ParseSignatureHeader` | webhooks.go:664-683 | The one-pass loop succeeds exactly when the header has a meaning, and returns it. |
| `Webhook.ComputeWebhookSignature` | webhooks.go:622-627 | Writing prefix and payload into the hash in turn gives the signature of the whole message. |
| `Webhook.SplitJoin` | webhooks.go:665 | Splitting at commas undoes joining parts without commas. |
| `WebhookProofs.LastFieldsWin` | webhooks.go:664-683 | With repeated fields the last timestamp and the last digest win, however they are written and wherever they stand; any malformed timestamp or an empty digest fails the whole header. |
| `WebhookProofs.PaddingIgnored` | webhooks.go:667 | Blanks around any part, whatever it says, do not change what the header parses to. |
| `WebhookProofs.OrderIgnored` | webhooks.go:666-683 | Headers with at most one timestamp and one digest, the same in both, parse the same in any order and with any other parts put in, left out or repeated. |
| `WebhookFields.FieldIs` | webhooks.go:667-680 | A part key=value is a timestamp for "t", a digest for "v1", and nothing for any other key, whatever the value. |
| `WebhookFields.NoField` | webhooks.go:667-669 | A part without = is nothing. |
| `WebhookFields.PlainBlank` | webhooks.go:667 | Spaces, tabs and line ends are blanks. |
| `WebhookFields.OtherPartIgnored` | webhooks.go:666-681 | A part that is neither timestamp nor digest, put in anywhere, changes nothing. |
| `WebhookFields.ParsesIff` | webhooks.go:664-683 | A header parses if and only if it has a timestamp, every timestamp in it is an int64, and its last digest is not empty. |
| `WebhookProofs.HeaderRoundTrip` | webhooks.go:622-683 | Parsing a printed header gives back its timestamp and digest. |
| `WebhookProofs.SignatureRoundTrip` | webhooks.go:622-683 | Parsing a computed signature gives the timestamp and the 64 hex digits of the hash. |
| `WebhookProofs.HexInjective` | webhooks.go:626 | Different byte strings have different hex digits. |
| `WebhookFields.HexAt` | webhooks.go:626 | Each byte is two lower-case hex digits, the high half first. |
| `WebhookFields.SignedAndPrinted` | webhooks.go:622-627 | What is signed is the timestamp in decimal, a dot and the payload; what is printed is "t=", the timestamp, ",v1=" and the digest. |
| `WebhookProofs.MessageInjective` | webhooks.go:624-625 | Different pairs of timestamp and payload never share a signed message. |
| `WebhookProofs.VerifyWebhookSignature` | webhooks.go:646-661 | Verification succeeds if and only if the header parses and its digest is the hash of the payload at its timestamp. |
| `WebhookProofs.PrintedVerifiesIff` | webhooks.go:646-661 | A header made for one payload verifies for another exactly on a hash collision of two different messages. |
| `WebhookProofs.CheckDelivery` | webhooks.go:602-612 | A delivery is accepted exactly when it verifies and its age, from the instant time.Unix makes of its timestamp, is within the tolerance; the saturated difference is the one exception. |
| `WebhookProofs.InstantExactIff` | webhooks.go:651 | That instant is the timestamp's own if and only if it is not past the last one a time.Time can hold. |
| `Token.MintedValidIff` | auth.go:86-97 | A fresh token with a lifetime is valid exactly when it has an access token and the low 64 bits of the product, read as signed, exceed ten seconds. |
| `Token.MintedExpiryIff` | oauth_flow.go:488-490 | A token gets the lifetime it was granted if and only if that is at most 2^63 - 1 nanoseconds in whole seconds; it is then valid when minted exactly if it lasts longer than ten seconds. |
| `Token.ValidUntil` | auth.go:86-97 | A token with an access token is valid for ever if granted no lifetime, and otherwise, while that does not overflow, until ten seconds before it expires. |
| `Token.LongLifetimeNeverValid` | oauth_flow.go:488-490 | A lifetime whose product wraps makes a token that is never valid. |
| `Token.RefreshTokenSource.Token` | oauth_flow.go:183-202 | A valid cached token is returned and nothing sent; otherwise the cached refresh token is presented; a usable answer replaces the cache, keeping the refresh token if none came; with any other the cache stays exactly as it was. |
| `Token.ClientCredentialsSource.Token` | oauth_flow.go:265-277 | Fetches exactly when the cache is not valid; a usable answer replaces the cache, and with any other it stays exactly as it was. |
| `TokenMonitor.OneRefreshInFlight` | oauth_flow.go:183-202 | In every interleaving at most one refresh is in flight, it presents the cached refresh token, and the cache never loses one. |
| `TokenMonitor.SpendsCurrentIff` | oauth_flow.go:183-202 | A refresh is sent with the server's current refresh token if and only if no answer to an accepted rotation was lost. |
| `TokenMonitor.LostIsFinal` | oauth_flow.go:183-202 | After a lost rotation the cache never changes again. |
| `TokenMonitor.LostRotationHappens` | oauth_flow.go:183-202 | A run in which one caller's refresh is accepted and its answer lost. |
| `TokenMonitor.HandedInRuns` | oauth_flow.go:183-202 | Every token handed out was valid at that moment, or has the access token, expiry and new refresh token of the grant that answered that very call, minted at that very instant. |
| `TokenMonitor.DeliverHands` | oauth_flow.go:192-201 | A usable answer is handed to the caller whose refresh it answers and kept for the others, with the old refresh token if it brought none. |
| `TokenMonitor.FailureChangesNothing` | oauth_flow.go:188-196 | A refresh that fails or is lost hands out nothing and leaves the cache as it was. |
| `TokenMonitor.NothingWithoutRefresh` | oauth_flow.go:183-202 | Without a cached refresh token no run sends a refresh or changes the cache, and once the cached token is not valid every call fails. |
| `TokenMonitor.RefreshesAreSpaced` | oauth_flow.go:183-202 | If all tokens last at least n > 10 s, any two successful refreshes are n - 10 s apart. |
| `CredentialsRuns.FetchesAreSpaced` | oauth_flow.go:265-277 | Over any life of a client-credentials source with tokens that last at least n > 10 s, any two successful fetches are n - 10 s apart. |
| `CredentialsRuns.NextFetch` | oauth_flow.go:265-277 | With a token in the cache the next successful fetch is its life less ten seconds away, whatever failed in between. |
| `CliAuth.WaitForCliAuth` | auth_service.go:702-747 | Sleeps and polls while sleeps succeed and answers are pending or 429; a cancelled sleep, a denial, any other status and any other error each end it with their own outcome; the sleeps are the specified ones. |
| `CliAuth.IntervalGrows` | auth_service.go:706-733 | After any answers the interval is the initial one plus five seconds per 429, modulo 2^64, and is that sum if and only if it fits a Duration. |
| `CliAuth.SleepAfter` | auth_service.go:706-733 | The first sleep is the handshake's interval or five seconds; after a pending answer it is the stretched interval; after a 429 the header's wait if positive, and five seconds if nothing was quoted. |
| `CliAuth.TotalSleep` | auth_service.go:706-747 | After any answers the time slept is the initial interval, plus the stretched interval, wrapped as it is, per pending answer, plus what each 429 asked for. |
| `CliAuth.AskedHonoredIff` | auth_service.go:721-731 | A wait quoted only in the body of a 429 is slept as asked if and only if it is at most 2^63 - 1 nanoseconds in whole seconds, and for a positive time if and only if the low 64 bits of the product say so. |
| `CliAuth.ExtraCanSpin` | auth_service.go:726-731 | A body that asks for 292 years makes the next poll immediate. |
| `PoolLink.PoolLinkWait` | poollink.go:308-320 | Sleeps for the interval or one second, whichever is longer. |
| `PoolLink.WaitForApproval` | poollink.go:361-375 | The wait is a list of executor runs, all but the last answered and not approved, each followed by one wait; the last one decides the outcome. |
| `PoolLinkProofs.OutcomeOfWait` | poollink.go:361-375 | All polls but the last succeeded without an approval and in a live context; the outcome is an approval, the last poll's failure or the end of the context exactly as that poll and the context make it. |
| `PoolLink.TokenAtMostOnce` | poollink.go:41-48 | Over the life of a code, at most one answer hands out the token. |
| `PoolLinkProofs.RunArrivals` | client.go:410-462 | A run stops at the first success it sees, which is the last request to arrive, and reports it. |
| `PoolLinkProofs.TokenIffSeen` | poollink.go:361-375 | Whenever the wait sees the token it stops there and returns it or fails to decode it, and it returns one only if it saw it last. |
| `PoolLinkProofs.TokenCollectedIff` | poollink.go:41-48 | Against a code that hands its token out once, the wait collects it exactly when the answer that carried it was not lost; a lost one is never returned. |
| `PoolLinkProofs.KeyedWaitStuck` | poollink.go:361-375 | With one Idempotency-Key for all polls and a first answer that is not an approval, the wait never collects the token. |
| `PoolLinkProofs.PollsPaced` | poollink.go:302-320 | In the events of a wait each poll's stand together, and right before those of any but the first comes a sleep of at least a second. |
| `PoolLinkProofs.PollWaitIs` | poollink.go:302-320 | The sleep is the quoted interval, or one second if that is longer, unless the product overflows. |
| `PoolLinkProofs.PollWaitHonorsIff` | poollink.go:361-362 | The sleep is at least the quoted interval exactly when its product does not overflow. |
| `WsFrame.MaskedTwice` | internal/wsconn/wsconn.go:420-423 | Masking with the same key again gives the payload back. |
| `WsFrame.ReadBack` | internal/wsconn/wsconn.go:294-353 | Every acceptable frame, in any length form, masked or not, is read back as it is, and the bytes after it are left. |
| `WsFrame.ReadOnlyEncodings` | internal/wsconn/wsconn.go:294-353 | Whatever is read without a fault was an encoding of exactly the frame returned, which is within its limits. |
| `WsFrame.BadLengthIff` | internal/wsconn/wsconn.go:325-343 | The one panic: a final control frame whose 64-bit length has its top bit set. |
| `WsEndings.Layout` | internal/wsconn/wsconn.go:394-432 | Where flags, opcode, length, masking key and payload stand in a frame, byte by byte. |
| `WsEndings.BigFirst` | internal/wsconn/wsconn.go:402-413 | Lengths are big-endian: the first digit weighs most. |
| `WsEndings.XorBit` | internal/wsconn/wsconn.go:420-423 | Masking flips exactly the bits set in the key. |
| `WsEndings.FormForIsShortest` | internal/wsconn/wsconn.go:398-414 | The writer uses the shortest length form there is for a length. |
| `WsEndings.Rejected` | internal/wsconn/wsconn.go:320-333 | A frame that breaks a limit is rejected for the limit it breaks: a fragmented control frame, a long one, or data over the budget. |
| `WsEndings.CutShort` | internal/wsconn/wsconn.go:294-347 | Any proper prefix of an acceptable frame is reported as cut short. |
| `WsEndings.NotRead` | internal/wsconn/wsconn.go:294-302 | A frame with a reserved bit set is rejected, and one without two bytes is cut short. |
| `WsConn.Conn.ReadFrame` | internal/wsconn/wsconn.go:294-353 | Reading piece by piece is reading the frame, with the same faults. |
| `WsConn.Conn.WriteFrame` | internal/wsconn/wsconn.go:385-434 | What is written is the encoding of the whole frame, masked, in the shortest length form. |
| `WsConn.Conn.WriteControl` | internal/wsconn/wsconn.go:375-380 | The payload is cut at 125 bytes. |
| `WsConn.Conn.WriteMessage` | internal/wsconn/wsconn.go:357-373 | Text and binary messages go out as one frame; any other type writes nothing. |
| `WsConn.Conn.Close` | internal/wsconn/wsconn.go:446-457 | The first call sends one close frame with the code as 16 bits and the reason cut to what fits, and closes the connection; later calls do nothing. |
| `WsConn.Conn.ReadMessage` | internal/wsconn/wsconn.go:235-288 | The read loop gives the specified reading of the input, consumes only it, and writes one pong per ping and the echo of a close. |
| `WsConn.Reassembled` | internal/wsconn/wsconn.go:235-288 | However a message is fragmented, encoded and interleaved with pings and pongs, its kind and bytes come back, each ping is answered with its payload, and reading stops at its end. |
| `WsEndings.EndsWith` | internal/wsconn/wsconn.go:253-281 | After any pings, pongs and parts, a close is echoed with its own payload and reported with its code, 1005 without one; a new message, a continuation of none and an unknown opcode are refused; a ping that cannot be answered ends the reading; and the pings before were all answered. |
| `WsEndings.BreaksWith` | internal/wsconn/wsconn.go:247-250 | After any pings, pongs and parts, a frame that cannot be read ends the reading with its fault. |
| `WsConn.MessageBounded` | internal/wsconn/wsconn.go:247-251 | No input makes a message larger than the limit. |
| `WsConn.WrittenIsRead` | internal/wsconn/wsconn.go:357-434 | A message written as one frame is read back whole by any reader whose limit allows it. |
| `WsConn.CloseRoundTrip` | internal/wsconn/wsconn.go:436-457 | A close is read as its code and the first 123 bytes of its reason. |
| `Gateway.Session.constructor` | gateway/gateway.go:380-420 | Buffer sizes and resume positions that are not positive are ignored. |
| `Gateway.Session.HandleFrame` | gateway/gateway.go:911-950 | Only workspace frames move the position, to the highest of the old one and the numbers the frame carries; the event is queued; only the loss of the workspace channel ends the connection. |
| `Gateway.Session.AdvanceSeq` | gateway/gateway.go:953-962 | The position becomes the higher of itself and a positive number. |
| `Gateway.Session.SendJoin` | gateway/gateway.go:834-849 | A join asks to resume from the position exactly if there is one. |
| `Gateway.Session.DispatchOne` | gateway/gateway.go:1040-1050 | The oldest queued event is handed to the handlers. |
| `Gateway.Session.Emit` | gateway/gateway.go:967-973 | A full queue drops the event and changes nothing. |
| `Gateway.Session.AdoptReady` | gateway/gateway.go:726-732 | The server's position is adopted only from position zero. |
| `GatewayResume.InvStep` | gateway/gateway.go:911-973 | Every step of client, server or network keeps the exact account of sent, accepted, lost and dropped events. |
| `GatewayRuns.PositionInRuns` | gateway/gateway.go:911-962 | After any run the position is the highest number the client was told by a feed, a marker or a join from position zero, no more and no less. |
| `GatewayRuns.HighestIsReported` | gateway/gateway.go:953-962 | That highest number is the first position or one that a step carried, and no feed or marker carried a higher one. |
| `GatewayRuns.JoinResumes` | gateway/gateway.go:722-732 | A join with a position replays from right after it, and one without starts where the stream stands. |
| `GatewayRuns.OrderKept` | gateway/gateway.go:967-973 | Nothing accepted is taken back or reordered, and the handlers get it in that order. |
| `GatewayRuns.LossExactly` | gateway/gateway.go:911-973 | At any point of any session, the wanted events passed over without being accepted are exactly those lost with ended connections, dropped, or still to be sent. |
| `GatewayRuns.LostForever` | gateway/gateway.go:834-849 | What is missing when a connection has ended is never delivered later, however the session goes on. |
| `GatewayRuns.NothingMissingIff` | gateway/doc.go:41-48 | Between connections nothing above the last reported gap is missing if and only if, above it, nothing was dropped, no connection ended with its replay overtaken or its feeds behind the position, and none was joined anew at position zero after events. |
| `GatewayRuns.OvertakingLoses` | gateway/gateway.go:726-731 | Resume at 10, stream at 12, live event 13 first, then a disconnect: event 11 is never delivered. |
| `GatewayRuns.AtMostTwice` | gateway/doc.go:45-47 | No event is accepted more than twice, and none more than once when no replay runs into the live feed. |

## Left out

- HTTP, TLS, sockets, redirects, timers and JSON: transport, clock, context and random draws are inputs, bodies and decoded values are abstract.
- Authenticators that change more of a request than Authorization, and header names beyond their canonical form.
- The text of HTTP dates: a Retry-After date enters as its distance from now.
- X-RateLimit-Limit, Remaining and Policy, and the decoding of error bodies, which no loop depends on.
- Client.Do: a body that cannot be rewound is a fate of the run, although buffered requests always can be.
- EventEncoding.ParseEncoded: for lines that fill the scanner's buffer only the simple encoding is covered, by `EventEncoding.SimpleRoundTrip`.
- EventStream.Stream: the callback gets each payload as a value, so what a callback that keeps the reused slice would later see is not modelled.
- Pages built by hand without a fetch closure, and request options that overwrite the cursor parameter.
- CursorListing.AllRowsSeen: the server is one over a table that does not change; what it does with filters other than the cursor is not modelled.
- Keyset.SubmissionsEnumerated: the page size is the server's; instants are integers, and formatting them is any function that parsing undoes.
- Token types and scopes, expiries at the ends of time.Time, and token objects shared between callers.
- TokenMonitor.RefreshesAreSpaced: lifetimes enter as the wrapped int64 product; one that wraps below the bound is outside the statement.
- CliAuth.WaitForCliAuth: a nil handshake and one without a device code are the same input.
- PoolLink.WaitForApproval: that the context is done at some point is assumed, as otherwise the loop need not end.
- WsConn.Conn.WriteFrame: deadlines and concurrent writers; a failed write may leave any part of a frame.
- The WebSocket opening handshake (section 4 of RFC 6455) and TLS configuration.
- GatewayRuns.NothingMissingIff: a server whose sequence falls behind the client's position is not modelled, since it is documented as monotonic.
- The gateway's reconnect pacing, heartbeats, join book and refused joins; frames of extra topics enter as frames that are not the workspace's.
- Resource services, permission masks, error predicates and the JSON forms of entities: thin wrappers and single expressions.
