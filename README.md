# financer-server: a verified model of the request pipeline

`financer-server.js` is a small Node service that keeps expense records in
MongoDB behind an HTTP and an HTTPS listener. Every request goes through
`appHandleRequest`. It dispatches on method and url to one of four handlers,
or answers with the not-found envelope, or does nothing. A body-reading
handler collects the body's chunks under a flood guard. The create and
delete handlers decode the assembled body as `name=value&...` fields. Once
the body has ended, each expense handler calls the store once. It then
hands a `{response, status, content?}` envelope to `sendResponse`, unless a
find or insert fails and the error is rethrown. A flood or a stream error
ends the request without a store call. The quotes handler never calls the
store. The module also builds the MongoDB connection
string from configuration.

This project models that core in Dafny and proves its properties:

- `Text` holds `String.prototype.split` with a one-character separator. It
  is proved to be the inverse of joining.
- `FormDecoder` holds the decoding loop (`DecodeBody`, a method with a loop
  over the pieces that updates a map) and the function it is proved
  against (`Decode`). Lemmas cover "last duplicate wins", "value is the
  second `=`-segment", "no `=` means undefined", "every name and value is an
  `&`/`=`-free substring of the body", and one key per distinct piece name.
- `BodyCollector` holds the collector as a class (`Collector`). Its chunk
  array is a `seq` field, and the destroyed connection is a `bool` field.
  The class is proved against a pure step function. A closed form says what
  any stream of chunks leaves behind. At most 1,000,001 chunks are kept,
  and they are the first ones, in arrival order.
- `Envelopes` holds the response envelopes and the per-tag status/content
  contract that each one keeps.
- `Router` holds `appHandleRequest`'s dispatch, with an if-and-only-if for
  every outcome and a table-based reference definition.
- `DbConnection` holds `dbconnection`, with a parser that recovers the
  configuration from the string.
- `RequestLifecycle` holds `Serve`, a whole request as one function. It
  goes from dispatch through collection and decoding to the store call
  issued and the outcome for the client.

Behaviour of the code a reader may not expect:

- The comment at financer-server.js:227 reads the flood guard as a 1 MB
  limit. The guard `body.length > 1e6` (financer-server.js:132) is applied
  to the ARRAY of chunks, before the push. It bounds the number of chunks,
  not bytes. A single chunk of any size is stored (`FirstChunkOfAnySizeKept`),
  and the connection is destroyed only for the 1,000,002nd chunk.
- A piece's value is its second `=`-segment, not the rest of the piece after
  the first `=`: `a=b=c` gives `a` the value `b`.
- GET `/quotes` selects the quotes handler, but the handler is called with no
  arguments (financer-server.js:90). Its first `request.on`
  (financer-server.js:172) then throws. The model gives `ProcessFault` for
  GET `/quotes` and does not claim the quotes envelope is ever sent.
  `QuotesEnvelope` models the envelope that handler builds.
- Assigning `fields['__proto__'] = value` on a plain object runs the
  inherited prototype setter. That setter ignores strings and `undefined`,
  so the key is never stored (`PROTO_KEY`, `DecodeSkipsProtoKey`).

The decoding loop appears twice in the source, at financer-server.js:250-260
and financer-server.js:325-335. The two copies are identical and are modelled
once. The collector handlers at 128-139, 176-187, 223-235 and 298-310 are
also identical and are modelled once.

Inputs the model takes as parameters:

- The five `config.get` values are strings, so a numeric port is given in
  its string form.
- The store's replies to find, insert and remove are given as values.
- The UTF-8 decoding done by `Buffer.toString` is given as a function
  `utf8`.

## Model

| member | source | states |
|---|---|---|
| Text.Split | financer-server.js:252 | the pieces of `split('&')` contain no separator and join back to the input; there is always at least one piece |
| Text.SplitCount | financer-server.js:252 | there is one piece more than there are separators, so the empty string gives one empty piece |
| Text.SplitJoin | financer-server.js:255 | splitting a join of separator-free parts gives back exactly those parts |
| FormDecoder.Name | financer-server.js:255 | the name is the first `=`-segment: the piece up to its first `=`, or the whole piece when it has none |
| FormDecoder.Value | financer-server.js:255 | the value is absent exactly when the piece has no `=`; otherwise it is the second `=`-segment: it starts right after the `=` that ends the name, and stops at the next `=` or at the end of the piece |
| FormDecoder.Assign | financer-server.js:257 | `fields[name] = value` stores the value under the name, except that an assignment to `__proto__` leaves the object unchanged |
| FormDecoder.AssignLeavesOthers | financer-server.js:257 | an assignment leaves every other property as it was |
| FormDecoder.Collect | financer-server.js:254-258 | the object after the assignments in piece order never holds `__proto__`; its keys and values are given by `CollectKeys`, `CollectLastWins` and `CollectEntryFrom` |
| FormDecoder.Decode | financer-server.js:250-260 | the decoder as a function of the body (split on `&`, one (name, value) pair per piece via `Entries`, assigned in order): it never stores `__proto__`; `DecodeLastWins` and `DecodeEntriesAreSubstrings` state what it stores |
| FormDecoder.DecodeBody | financer-server.js:250-260 | the loop over `split('&')` that assigns `fields[name] = value` yields exactly `Decode` of the body |
| FormDecoder.CollectKeys | financer-server.js:254-258 | a key is stored iff some piece has that name and the name is not `__proto__` |
| FormDecoder.CollectLastWins | financer-server.js:257 | a name's stored value is that of its last occurrence |
| FormDecoder.CollectEntryFrom | financer-server.js:257 | each stored (name, value) is the pair of some piece |
| FormDecoder.DecodeLastWins | financer-server.js:252-258 | for a body: one key per distinct piece name other than `__proto__`, holding the value of the name's last piece |
| FormDecoder.DecodeEntriesAreSubstrings | financer-server.js:252-257 | every stored name and value is an `&`-free and `=`-free substring of the body, so nothing is percent-decoded |
| FormDecoder.PieceSegments | financer-server.js:255 | for a piece `s0=s1=...`, the name is `s0`, the value is `s1`, and the value is absent when there is a single segment |
| FormDecoder.DecodeTwoPieces | financer-server.js:254-258 | a two-piece body is two assignments, in order |
| FormDecoder.PiecePair | financer-server.js:255 | `name=value` has that name and value |
| FormDecoder.DecodeDropsThirdSegment | financer-server.js:255 | `a=b=c` decodes to `{a: b}` |
| FormDecoder.DecodeTwoFields | financer-server.js:250-260 | `n1=v1&n2=v2` with distinct names decodes to both fields |
| FormDecoder.DecodeDuplicateKeepsLast | financer-server.js:257 | `n=v1&n=v2` decodes to `{n: v2}` |
| FormDecoder.DecodeNameOnly | financer-server.js:255-257 | a body without `=` or `&` stores its name with an undefined value |
| FormDecoder.DecodeSingleField | financer-server.js:250-260 | `n=v` decodes to `{n: v}` |
| FormDecoder.DecodeEmptyBody | financer-server.js:252-257 | the empty body decodes to the single key `""` with an undefined value |
| FormDecoder.DecodeSkipsProtoKey | financer-server.js:257 | a `__proto__=...` piece stores nothing and leaves the other fields as they are |
| BodyCollector.Step | financer-server.js:128-139 | one `data` event pushes that chunk when at most 1e6 chunks are stored; otherwise it leaves the chunks as they are and destroys the connection; earlier chunks never change, and the count stays within 1,000,001 |
| BodyCollector.Feed | financer-server.js:128-139 | a stream of `data` events keeps the chunks already stored and the bound, and a destroyed connection stays destroyed; `FeedClosedForm` gives the exact result |
| BodyCollector.FeedClosedForm | financer-server.js:128-139 | from any state within the bound: chunks are appended until the array holds 1,000,001; later chunks are dropped; the connection is destroyed iff a chunk was dropped |
| BodyCollector.FeedFromInitial | financer-server.js:121-139 | a fresh collector keeps exactly the first min(n, 1,000,001) chunks of the stream, in order, and is destroyed iff the stream has more than 1,000,001 chunks |
| BodyCollector.Concat | financer-server.js:248 | `Buffer.concat`: the buffer is as long as all chunks together; `ConcatAt` places each chunk after those before it |
| BodyCollector.ConcatAppend | financer-server.js:248 | `Buffer.concat` of two arrays appended is the two concatenations appended |
| BodyCollector.ConcatAt | financer-server.js:248 | every chunk sits in the buffer right after the bytes of the chunks before it (arrival order) |
| BodyCollector.FirstChunkOfAnySizeKept | financer-server.js:132 | the guard counts chunks, not bytes: a first chunk of any size is stored whole |
| BodyCollector.Collector.constructor | financer-server.js:121 | a new collector is empty, not destroyed, and within the bound |
| BodyCollector.Collector.OnData | financer-server.js:223-235 | pushes the chunk if the count is at most 1e6; otherwise marks the connection destroyed and drops the chunk; keeps the bound and every earlier chunk |
| BodyCollector.Collector.OnEnd | financer-server.js:248 | returns the concatenation of the stored chunks, whose length is their total length |
| Envelopes.Tag.Text | financer-server.js:155-401 | the `response` strings: `notfound`, `error`, `expenses`, `quotes`, `expense_new` and `expense_delete`; each is a non-empty word of lower-case letters and `_` |
| Envelopes.NotFoundEnvelope | financer-server.js:385-388 | tag `notfound`, status 0, no content |
| Envelopes.ErrorEnvelope | financer-server.js:398-401 | tag `error`, status 0, no content |
| Envelopes.ExpensesEnvelope | financer-server.js:155-159 | tag `expenses`, status 1, with the documents found as content |
| Envelopes.QuotesEnvelope | financer-server.js:195-203 | tag `quotes`, status 1, with the single quote `^BVSP` as content |
| Envelopes.ExpenseNewEnvelope | financer-server.js:278-281 | tag `expense_new`, status 0, no content |
| Envelopes.DeleteEnvelope | financer-server.js:363-375 | the error envelope iff the store reported an error; otherwise `expense_delete`, status 0, with the store's result as content |
| Envelopes.StatusMeaning | financer-server.js:155-159 | under the contract, status 1 means exactly a list read, and content is present exactly for list reads and deletions |
| Router.Dispatch | financer-server.js:71-118 | GET `/expenses` and `/quotes` select the list handlers; POST `/expense/new` and `/expense/delete` select create and delete; any other GET url, and any other method, gives not-found; any other POST url gives nothing; a pair has a handler iff it is one of the four in the table; the body is read iff it is one of the three expense pairs, since the quotes handler faults first |
| Router.DispatchMatchesTable | financer-server.js:79-117 | dispatch agrees with the table of the four handled (method, url) pairs; outside the table, POST is dropped and everything else is not-found |
| DbConnection.Auth | financer-server.js:31 | the credentials are present iff there is a username; they start with it and end with the `@` before the host |
| DbConnection.ConnectionString | financer-server.js:33 | the string starts with `mongodb://` |
| DbConnection.ParseConnectionString | financer-server.js:25-34 | for separator-free values, the configuration is recovered from the string, up to the password that an empty username drops |
| DbConnection.PasswordIgnoredWithoutUser | financer-server.js:31-33 | with an empty username the string is `mongodb://server:port/database` and no password appears in it |
| RequestLifecycle.IdOf | financer-server.js:351-355 | `fields['id']` is a string exactly when the decoded object holds `id` with a value, and it is that value |
| RequestLifecycle.EndListener | financer-server.js:141-164 | the `end` listener of an expense handler (also 237-286 and 312-380) makes exactly one store call, of its route's kind; it answers with a conforming envelope, or faults exactly when a find or insert fails |
| RequestLifecycle.Serve | financer-server.js:71-401 | a whole request: every envelope sent keeps its tag's contract; the store is called only on an expense route after the stream ended; only an expense route can destroy the connection |
| RequestLifecycle.UnroutedRequests | financer-server.js:94-117 | a request with no handler reads no body and makes no store call: not-found for GET and other methods, no response for POST |
| RequestLifecycle.QuotesRequestFaults | financer-server.js:88-92 | GET `/quotes` selects the quotes handler, which is called without a request and faults |
| RequestLifecycle.FloodDestroysConnection | financer-server.js:128-139 | more than 1,000,001 chunks on a store-backed route destroy the connection, send no envelope and make no store call |
| RequestLifecycle.StreamErrorOutcome | financer-server.js:217-221 | a stream error gives the error envelope, except on delete, whose error listener sends nothing |
| RequestLifecycle.CompleteBody | financer-server.js:128-139 | a stream of at most 1,000,001 chunks is kept whole and does not destroy the connection |
| RequestLifecycle.CompletedBodyReachesEnd | financer-server.js:237-248 | a completed, unflooded body reaches the `end` listener as the decoding of all its bytes in arrival order |
| RequestLifecycle.ListExpensesOutcome | financer-server.js:141-164 | GET `/expenses` issues one find; it answers `expenses`/1 with the documents (the empty list for an empty collection) or faults on a store error |
| RequestLifecycle.CreateExpenseOutcome | financer-server.js:237-286 | POST `/expense/new` inserts exactly the decoded body and answers `expense_new`/0 with no content, or faults on an insertion error |
| RequestLifecycle.DeleteExpenseOutcome | financer-server.js:312-380 | POST `/expense/delete` removes by the decoded `id` field; it answers `expense_delete`/0 with the store's result, or the error envelope on a store error |
| RequestLifecycle.IdOfSingleField | financer-server.js:351-355 | the body `id=v` yields the id `v` |
| RequestLifecycle.DeleteById | financer-server.js:351-356 | a delete whose body is `id=v` removes by `v` |
| RequestLifecycle.StoreCalledOnlyAfterCompleteBody | financer-server.js:141-356 | the store is called at most once, and only on a store-backed route after a completed body of at most 1,000,001 chunks |

## Left out

- The HTTP and HTTPS listeners, the TLS key and certificate reads, and the
  `onRequest` wrappers (financer-server.js:18-21, 53-67) are network and
  file I/O. Both listeners feed `appHandleRequest`, which is modelled.
- The MongoDB driver (`mongojs`, `db.on`, `find().sort`, `insert`,
  `remove`, `db.ObjectId`) is a foreign library. The store call issued is
  recorded as a `StoreCall`, and its reply is an input. `db.ObjectId`'s
  conversion of the id, and a throw for a malformed id, are not modelled.
- `config.get` is replaced by string parameters. A missing key, which
  makes `config.get` throw, and non-string values are not modelled.
- `JSON.stringify` of envelopes and documents, and the headers written by
  `sendResponse` (financer-server.js:408-413), are left out. The model stops
  at the envelope value handed to `sendResponse`.
- `Buffer.toString`'s UTF-8 decoding is a parameter, not a definition.
- The runtime's Buffer and string length limits are not modelled. The guard
  counts chunks, so a body that is not flooded can still exceed the largest
  string V8 can hold (about 2^29 code units). An example is 10,000 chunks of
  64 KiB. On such a body, `Buffer.concat(body).toString()`
  (financer-server.js:144, 248, 323) throws in the `end` listener, and the
  error is not caught. The model's `utf8` is total, so `Serve`,
  `CompletedBodyReachesEnd` and `CreateExpenseOutcome` send every body that
  is not flooded on to decoding.
- Console and `debug` logging are left out.
- The callback, `.bind` and event-loop mechanics are left out. A stream is
  its chunks followed by either `end` or `error`. The outcome of a rethrown
  store error (financer-server.js:151, 275) is the single value
  `ProcessFault`.
- `request.connection.destroy()` is only the `destroyed` flag. What Node
  emits on a destroyed connection afterwards is not modelled; `Serve` treats
  the destruction as final.
- `Fields` is a map, so the property order of the decoded object is not
  modelled. In JavaScript, integer-like names come first, then the other
  names in order of first assignment. That order is the field order of the
  document handed to `insert` (financer-server.js:269).
- Calling `sendResponse` twice on one request cannot happen in the modelled
  paths and is not modelled.
