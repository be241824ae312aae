# College fantasy football draft server: the draft state machine

A Dafny model of the in-memory draft logic of the demo's dependency-free
Node server (`server.js`). The server keeps a read-only list of players
and a `Set` of drafted player ids. A `POST /api/draft` request adds one id
to that set, after two checks. Each successful draft is pushed to every
connected Server-Sent Events client. Clients connect on `/sse`. The model
covers:

- **Draft store** (`DraftStore.dfy`): the draft decision with its two
  rejections in their fixed order (unknown id first, then already drafted).
  Also the HTTP status and body of each outcome, the "available" and
  "roster" projections, the standings total, and the outcome of a whole
  session of draft requests handled one after another.
- **Server state** (`Server.dfy`): a `DraftServer` class whose fields are
  the drafted ids and the client list, plus a ghost record of what each
  connection has been sent. Its methods are connect (`Subscribe`), close
  (`Close`), `broadcastEvent` (`Broadcast`, the back-to-front loop that
  splices out failing clients) and the draft handler (`Draft`).
- **Event wire format** (`EventStream.dfy`): the message template
  `event: <name>\ndata: <data>\n\n`. Its partner is the receiver's reading of
  an event stream, as defined in section 9.2.6 ("Interpreting an event
  stream") of the WHATWG HTML Living Standard. Lines end at CRLF, CR or LF.
  A line is a field, a comment or a blank line. A blank line dispatches.
- **Draft event** (`DraftEvent.dfy`): the payload `JSON.stringify({ id })`,
  which is `{"id":<decimal id>}`, and a reader that recovers the id from it.
- **Content type** (`ContentType.dfy`): `getContentType`, the
  extension-to-type switch with its default.
- `Common.dfy`: sequence helpers. These are duplicate-freedom,
  order-preserving removal (`Without`), `indexOf` and reversal.

The source runs each request handler to completion in one synchronous
callback on Node's single thread. The check-then-add of a draft therefore
cannot interleave with another request, so the model is sequential. The
JavaScript `Set` is modelled as a duplicate-free `seq<int>` in insertion
order. The standings total folds over `Array.from(drafted)`, which follows
that order. An SSE client is a `Connection` object that `Subscribe`
allocates, like the fresh response object of each `/sse` request. A write
that throws is an input: the set `failing` of connections whose write fails
during that broadcast.

Three points of the code shape the model:
- `broadcastEvent` splices each failing client out in place while walking
  the list from the back; it does not copy the list first. `Broadcast` does
  the same, and proves the effect equals "original list minus failing
  clients, order kept".
- The draft handler makes no atomic compare-and-set: the check and the add
  are two steps kept together only by the single-threaded event loop.
- `InvalidPlayer` is the "Invalid player ID" answer, given to any id that no
  player carries.

## Model

| member | source | states |
|---|---|---|
| `DraftStore.Find` | server.js:112 | `find` yields nothing exactly when no player carries the id; otherwise it yields a player from the list carrying that id |
| `DraftStore.FindFirst` | server.js:112 | `find` yields the first player in list order that carries the id |
| `DraftStore.Decide` | server.js:112-123 | a draft is declined as InvalidPlayer exactly when no player has the id. It is declined as AlreadyDrafted exactly when the id is known and already drafted. It succeeds exactly when the id is known and not yet drafted. So the unknown-id check wins over the drafted check |
| `DraftStore.Respond` | server.js:113-126 | only a success answers 200, with body `{"ok":true}`; both declines answer 400. The body is `{"error":"Invalid player ID"}` exactly for InvalidPlayer and `{"error":"Player already drafted"}` exactly for AlreadyDrafted |
| `DraftStore.Available` | server.js:87 | the available list holds exactly the listed players whose id is not drafted |
| `DraftStore.Roster` | server.js:95 | the roster holds exactly the listed players whose id is drafted |
| `DraftStore.ProjectionsPartition` | server.js:87-95 | available and roster together hold every player exactly as often as the player list does (multiset sum), and each keeps the player list's order (is a subsequence of it) |
| `DraftStore.Standings` | server.js:153-156 | the `reduce` over `Array.from(drafted)`: adds, in insertion order, the rating `find` gives each drafted id (0 for a missing one). `StandingsEmpty` and `StandingsIsRosterRating` state what the total is |
| `DraftStore.StandingsEmpty` | server.js:153-156 | with nothing drafted the total is 0 |
| `DraftStore.StandingsIsRosterRating` | server.js:153-156 | with unique player ids, the total of the reduce (ratings found by `find`, 0 for a missing id) equals the sum of the ratings of the roster |
| `DraftStore.Run` | server.js:110-126 | a session: the handler applied to each requested id in turn, starting from nothing drafted. It gives one outcome per request; `RunDrafted`, `RunOutcome` and `AtMostOnce` state what the outcomes and the drafted ids are |
| `DraftStore.RunDrafted` | server.js:118-123 | after any sequence of draft requests, the drafted ids are exactly the requested ids that belong to a player, each recorded once |
| `DraftStore.RunOutcome` | server.js:112-123 | in a sequence of requests, request k succeeds exactly when its id is a known player's and was not requested before it. It is InvalidPlayer exactly when the id is unknown, and AlreadyDrafted exactly when a known id was requested before |
| `DraftStore.AtMostOnce` | server.js:118-123 | of two requests for the same id, at most one succeeds, and the later one never does; the earlier one succeeds when the id is a known player's and was not requested before it |
| `EventStream.Format` | server.js:32 | the template `event: <name>\ndata: <data>\n\n`. `FormatParses`, `FormatThenRest`, `FormatInjective` and `JoinParses` state how a receiver reads it |
| `EventStream.FormatParses` | server.js:32 | take a message built by the template from a name and a payload, neither holding a CR or LF. A receiver reads it as exactly one event with that name (`message` if the name is empty) and that data |
| `EventStream.FormatThenRest` | server.js:32 | such a message, followed by any further stream, is read as its one event followed by what the rest of the stream yields |
| `EventStream.FormatInjective` | server.js:32 | distinct (name, data) pairs without line terminators give distinct messages |
| `EventStream.JoinParses` | server.js:33-40 | everything written to one connection, if it is a series of such messages, is read back as exactly those events in the order they were written |
| `DraftEvent.Payload` | server.js:124 | `JSON.stringify({ id })` for an integer id: `{"id":` then the id in decimal then `}`. `PayloadRoundTrip` states that the id reads back out of it |
| `DraftEvent.Message` | server.js:124 | the draft handler's `broadcastEvent("draft", ...)` message, the template filled with `draft` and the payload. `MessageParses`, `MessageInjective` and `StreamOfDrafts` state how receivers read it |
| `DraftEvent.PayloadRoundTrip` | server.js:124 | reading the id back out of the payload `{"id":<id>}` gives the drafted id, for every integer id |
| `DraftEvent.MessageParses` | server.js:124 | the broadcast draft message is read as one `draft` event, and its data gives back the drafted id |
| `DraftEvent.MessageInjective` | server.js:124 | draft messages for different ids differ |
| `DraftEvent.SingleDraftStream` | server.js:124 | a connection sent only the draft message of an id reads exactly that id's draft event |
| `DraftEvent.StreamOfDrafts` | server.js:123-124 | a connection sent the draft messages of a series of ids reads that series of draft events, in the same order |
| `ContentType.GetContentType` | server.js:58-71 | the type equals the lookup in the table of the four known extensions, with the default for all others. The default is returned exactly for unknown extensions, and every type declares `charset=utf-8` |
| `ContentType.KnownTypesDistinct` | server.js:58-71 | the four known extensions get four different types |
| `Common.Without` | server.js:38 | the clients left after failing or closed ones are spliced out: every element kept is in the input and not removed, every element of the input that is not removed is kept, and the result is no longer than the input. `WithoutIsSubsequence` states that order is kept |
| `Common.IndexOf` | server.js:145 | `indexOf` returns -1 exactly when the element is absent; otherwise it returns a position holding the element with no earlier occurrence |
| `Common.WithoutIdempotent` | server.js:144-147 | removing a client that was already removed changes nothing, so a second close is a no-op |
| `Common.WithoutIsSubsequence` | server.js:38 | removing clients keeps the remaining clients in their relative order |
| `Server.AfterBroadcast` | server.js:33-40 | the records after `broadcastEvent`'s loop: targets handled back to front, each non-failing target's record gaining the message at its end. `AfterBroadcastKeys` and `AfterBroadcastAt` state its effect per connection |
| `Server.AfterBroadcastKeys` | server.js:31-41 | a broadcast neither adds nor drops any connection's record |
| `Server.AfterBroadcastAt` | server.js:33-40 | per connection, a broadcast to distinct clients appends the message exactly once, at the end, for each client whose write does not fail. It leaves every other connection's record unchanged |
| `Server.DraftServer.constructor` | server.js:20-28 | at start-up the player list is the given one, nothing is drafted, no client is connected and nothing has been sent |
| `Server.DraftServer.Subscribe` | server.js:143 | a new connection is appended at the end of the client list, and the existing clients and all records are untouched; the invariant is kept |
| `Server.DraftServer.Close` | server.js:144-147 | the list afterwards is the old list minus this connection, with the other clients in order. If the connection is absent, nothing changes. The invariant is kept |
| `Server.DraftServer.Broadcast` | server.js:31-41 | writes are attempted exactly once per client present at the start, back to front. The list afterwards is the old list minus the failing clients, order kept. Each connection present at the start whose write does not fail gains the message exactly once, at the end of its record. Every other record is unchanged, and no record is added or dropped. Client-list invariants are kept |
| `Server.DraftServer.Draft` | server.js:110-126 | the outcome is `Decide` on the old drafted ids. A success appends the id to the drafted ids and broadcasts exactly one draft message carrying the id. A decline changes neither the drafted ids, the client list nor any record. A failing write changes only the client list, never the outcome |

## Left out

- HTTP routing, `URL` parsing, request-body accumulation and its 1e6-byte guard: these are I/O (server.js:74-76, 102-107).
- `JSON.parse` of the request body and its "Invalid JSON" answer: a library call (server.js:110, 127-130). The draft id reaches `Draft` already decoded as an integer.
- `Number(data.playerId)` conversion (server.js:111): JavaScript numeric coercion. Non-integer and NaN ids are not modelled; such an id matches no player, so the source answers "Invalid player ID".
- `JSON.stringify` in general. Only the one payload shape `{"id":<integer>}` is written out. For ids of magnitude 10^21 or more, JavaScript prints exponent notation, and ids beyond 2^53 are not exact doubles. The model prints every integer in plain decimal.
- The `[{ teamName: "Your Team", points }]` wrapper of the standings response, and the serialisation of player lists: JSON formatting (server.js:157-159).
- Static file serving and `tryReadStatic`: filesystem calls (server.js:44-55, 164-183). Only `getContentType` is modelled. `path.extname` is not.
- The health endpoint with `process.uptime()`, the `retry: 10000` handshake written before a client joins the list, and `server.listen`: a clock, I/O and startup (server.js:79-83, 142, 187-190).
- server.js.js (the Express/socket.io/SQLite variant) is not part of this model: it holds wiring and table definitions, with no draft logic.
- Concurrency: the source is single-threaded, so every operation is modelled as one atomic step.
- Floating point: `rating` is a natural number, so the standings sum is exact.
- A write that does not throw but only buffers (`res.write` returning false) is treated as delivered. A write that throws is treated as delivering nothing.
- `EventStream.Parse`: the `id` and `retry` fields and their effect on reconnection are not modelled; they dispatch nothing. Also not modelled: removal of a leading byte-order mark, and the wait for an LF after a trailing CR at the end of the input (a final lone CR is taken as a line end).
- `DraftStore.StandingsIsRosterRating` assumes unique player ids. The source never checks this, and with duplicate ids `find` counts only the first player carrying an id, while the roster lists all of them.
- `Server.DraftServer.Close` is a method the caller invokes. The registration of the `close` listener on the request is not modelled.
