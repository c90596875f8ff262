# Chat relay: participant registry and message log

A model of the core of a small chat relay (an Express and MongoDB
server). The relay keeps two collections:

- `participants` holds one `{name, lastStatus}` document per joined name.
- `messages` is a log of `{from, to, text, type, time}` documents.

Four HTTP handlers work on these collections:

- **POST /participants** validates the name (a string of at least three
  characters). It refuses a name already present with 409. Otherwise it
  stores the participant and appends a "entra na sala..." status message
  addressed to "Todos", then answers 201.
- **GET /participants** returns every stored participant.
- **POST /messages** builds a message from the `user` header and the body's
  `to`, `text` and `type`. It validates that message and appends it (201),
  or answers 422.
- **GET /messages** keeps the messages the reader may see. Those are the
  ones sent by the reader, addressed to the reader or to "Todos", or of type
  `message`. It returns the first `limit` of them in store order, or 422
  when none match.

Files:

- `types.dfy` (module `ChatTypes`) holds the documents, the raw body values
  (`Field`: missing, a string, or another JSON value) and the constants.
- `schemas.dfy` (module `Schemas`) holds the two joi schemas.
- `visibility.dfy` (module `Visibility`) holds the read: the filter, the
  limit, and how the page changes as the log grows.
- `state.dfy` (module `ChatState`) holds the two writing handlers as pure
  transitions on both collections. It also holds the invariant every
  reachable state keeps, and its preservation over any sequence of requests.
- `server.dfy` (module `Server`) holds the class `ChatServer`. Its two
  sequence fields are the collections, and its four methods are the
  handlers. Each writing method is proved to leave exactly the state, and
  return exactly the status, that the pure transition gives.

Clock and formatting calls are parameters. `now` stands for `Date.now()`.
`time` stands for `dayjs().format("HH:mm:ss")`.

What the code does not do:

- It has no heartbeats, no expiry sweep with "left" messages, no message
  deletion and no check that a sender is registered.
  `UnregisteredSenderAccepted` and `PostIgnoresParticipants` show that a
  post is answered the same whoever is registered.
- It does not sort the messages it reads, newest first or otherwise. The
  model takes the unsorted query to return documents in insertion order
  (see "## Left out"). Under that assumption the page is the oldest `limit`
  matching messages, and `ReadIgnoresNewWhenFull` shows that a reader who
  already has `limit` matching messages does not get a newer one.

## Model

| member | source | states |
|---|---|---|
| Schemas.ValidateParticipant | src/app.js:16-18 | A name is accepted exactly when it is a string of at least 3 characters; the accepted value is that string |
| Schemas.ValidateMessage | src/app.js:20-26 | A message is accepted exactly when the sender is a non-empty string, `to` and `text` are non-empty strings, `type` is `message` or `private_message` and the time is non-empty; the accepted message carries those values, and is never a status message |
| Visibility.Filter | src/app.js:120-127 | The matching messages are all visible to the reader, a subsequence of the log in log order, and empty exactly when no message of the log is visible |
| Visibility.FilterCounts | src/app.js:120-127 | Every visible message occurs in the result as often as in the log, every invisible one not at all |
| Visibility.Read | src/app.js:115-135 | For a positive limit: 422 exactly when no message is visible; otherwise between 1 and `limit` visible messages, the first ones of the filtered log, a subsequence of the log |
| Visibility.FilterAppend | src/app.js:120-127 | Appending a message extends each reader's filtered view by that message if it is visible to them, and leaves it unchanged otherwise |
| Visibility.ReadIgnoresNewWhenFull | src/app.js:120-129 | A reader with at least `limit` matching messages gets the same page after any new message is appended |
| Visibility.ReadShowsNewWhileRoom | src/app.js:120-129 | A reader with fewer than `limit` matching messages gets a new visible message at the end of the page |
| ChatState.Join | src/app.js:41-66 | Invalid name: 422, nothing changes; name present: 409, nothing changes; otherwise 201, one participant `{name, now}` and one status notice `{name, "Todos", "entra na sala...", "status", time}` appended, nothing else |
| ChatState.Post | src/app.js:87-108 | Invalid message: 422, nothing changes; valid: 201, the message from the `user` header with the body's fields appended to the log, participants unchanged |
| ChatState.JoinPreservesInvariant | src/app.js:41-66 | Join keeps names distinct and at least 3 characters long, messages well formed, and the participants equal to the senders of the status messages |
| ChatState.PostPreservesInvariant | src/app.js:87-108 | Post keeps the same invariant |
| ChatState.SecondJoinConflicts | src/app.js:51-56 | Right after a name is accepted, joining with it again is a 409 that changes nothing |
| ChatState.JoinedNameStaysTaken | src/app.js:51-56 | Once a name is accepted, a join with that name after any sequence of further requests is a 409 |
| ChatState.RegisteredWasAnnounced | src/app.js:56-64 | In a reachable state every participant has a status message from its name in the log |
| ChatState.PostIgnoresParticipants | src/app.js:87-108 | The status and the new log of a post are the same whatever participants are stored; participants are carried over unchanged |
| ChatState.UnregisteredSenderAccepted | src/app.js:87-108 | A post is stored although its sender is not a participant |
| ChatState.ReplayPreservesInvariant | src/app.js:41-113 | Any sequence of join and post requests keeps the invariant |
| ChatState.NamesStayDistinct | src/app.js:51-56 | From empty collections, participant names stay pairwise distinct under any sequence of requests |
| ChatState.ReplayOnlyAppends | src/app.js:56-106 | Any sequence of requests keeps the earlier participants and messages as prefixes |
| Server.ChatServer.constructor | src/app.js:37-39 | The two collections start empty and the invariant holds |
| Server.ChatServer.PostParticipants | src/app.js:41-71 | The handler's new collections and status are those of `Join`, and the invariant is kept |
| Server.ChatServer.GetParticipants | src/app.js:73-85 | Returns the stored participants unchanged, with distinct names of at least 3 characters, and modifies nothing |
| Server.ChatServer.PostMessages | src/app.js:87-113 | The handler's new collections and status are those of `Post`, and the invariant is kept |
| Server.ChatServer.GetMessages | src/app.js:115-140 | Returns the answer of `Read` on the stored log, and modifies nothing |

## Left out

- Express setup, CORS, body parsing, environment loading and `app.listen`
  are HTTP and process plumbing.
- The MongoDB connection is left out; the collections are sequences. The
  store-assigned `_id` of every document is not modelled, so two equal
  documents are indistinguishable in the model.
- Visibility.Filter: the `find` without a `sort` is taken to return the
  matching documents in insertion order. That is what a scan of this
  insert-only collection gives in practice, but MongoDB does not guarantee
  its natural order. The oldest-first behaviour of `Read`,
  `ReadIgnoresNewWhenFull` and `ReadShowsNewWhileRoom` rests on this.
- Visibility.Read: only a positive `limit` is modelled. `Number(req.query.limit)`
  can give `NaN`, zero or a negative number, and how the driver's `limit`
  treats those is library behaviour outside this model.
- The joi error texts and the arrays of them sent with 422 are left out;
  validation failure is a single error result.
- Schemas.ValidateParticipant: joi counts a string's length in UTF-16 code
  units, the model counts Unicode characters. A name of astral-plane
  characters can therefore be judged differently.
- Clock readings and time formatting are opaque parameters. The formatted
  time is never empty in practice, so its check in `ValidateMessage` never
  fails there.
- The 500 answers on a store failure are left out. So is the `!participants`
  404 branch of GET /participants, which cannot be reached because `toArray`
  always yields an array.
- Concurrency is left out. The model handles one request at a time, so the
  race between `findOne` and `insertOne` on two simultaneous joins of one
  name, which could store the name twice, is not captured.
- Heartbeats, expiry sweeps, message deletion and newest-first ordering are
  not in the code and are not modelled.
