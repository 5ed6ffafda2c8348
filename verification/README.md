# passwd-pot, verified

passwd-pot is a honeypot. Protocol traps (PostgreSQL, POP, FTP) accept connections
and report the names and passwords that are tried; a proxy queues the reports and
relays them in batches; a lambda stores them and attaches geographic locations,
which a resolver keeps in a `geo` table behind a cache. This project models those
parts in Dafny and proves properties of them: `dafny verify dfyconfig.toml` checks
everything.

How it is laid out, one module a file:

| modules | part of the program |
|---|---|
| `Bytes`, `Pieces`, `Slices` | big-endian integers, splitting and joining, Go slices over shared arrays with the append rule |
| `Frames`, `Buf` | message framing and typed fields; the readers and writers of `cmd/psql/buf.go` |
| `NulList`, `Session`, `Handler`, `Clients` | the PostgreSQL session of `cmd/psql/psql.go`: first as a function of the client's bytes, then as code over one shared scratch array; and what comes of it by what clients send |
| `Address`, `Geo`, `Cache`, `Resolver` | the resolver: functions that say what each operation does to tables and cache, and the classes that do it |
| `Runs`, `Interleave`, `SharedHistory` | whole runs of one resolver; any number of resolvers interleaved statement by statement; when the location history survives that |
| `Proxy` | the queue and its bounded drains |
| `Batch` | the batch handler of the lambda, on top of the resolver |
| `Decimal`, `Params`, `EventTime` | placeholders in SQL text, event times |
| `Lines`, `Pop`, `Ftp` | the two line-oriented traps |
| `Wrappers` | an option type and two facts about sequences |

Conventions. What the program cannot know is a parameter: how each write or query
fares, what the geo service answers and when, which producers enqueue between two
dequeues, when the scheduler runs a goroutine. A Go panic is an outcome, not a
precondition. Times are nanoseconds. Bytes are integers below 256; in `Params`,
`Decimal`, `Address` and the geo tables text is a Dafny string.

The time arithmetic of the resolver assumes no more of `AddDate(0, -1, 0)` than that
it goes back by the length of the previous month, 28 to 31 days. The geo service is
assumed to answer for the address it was asked about, with the current time.
Program and database share one clock. A new row carries the time at which the geo
service answered, not that of its INSERT; so it takes at most 14 days from each SELECT
to its write for rows written behind each other's back to be at most 28 days apart.

## What the code does differently from what one would expect

The model follows the code. In these places the proofs say exactly what happens; the
corrected behaviour, where it is modelled beside it, is a separate value of a
parameter and a deviation from the source.

- The origin's id is cached under the remote address (`resolver/resolve.go:150`).
  `Runs.StepAgreesIff` and `Runs.RunAgreesIff` say exactly which runs this spoils,
  `Runs.SpoiledRun` is one, and `Runs.RemoteLeftMappedTo` says whose row the entry
  names; `UnderOrigin` is the corrected keying.
- A repeated address in a batch gets the id resolved last, not the one in the memo
  (`aws/lambda/events.go:148-156`). `Batch.RightForAllIff` says exactly which batches
  are right, and `Batch.WrongBatch` is one that is not; `FromMemo` is the corrected
  reuse.
- A drain drops the item that goes over the limit, and an item that does not decode
  takes the whole batch with it (`cmd/proxy.go:161-169`): fates `Overflowed` and
  `LostToDecoding`. `Proxy.LosesNothingIff` says from the queue alone exactly when
  a drain loses nothing; `Proxy.LosingQueue` is a queue that loses an item.
- The user name is looked for at values as well as at names
  (`cmd/psql/psql.go:187-191`). `NulList.UserRightIff` gives the exact condition; a
  user called "user" is always reported wrongly.
- The FTP trap makes a new reader for each command (`cmd/ftp/ftp.go:117`) and loses what
  a read delivers behind a newline. `Ftp.LinesReadIff` gives the exact condition under
  which no command is lost or altered; `Ftp.LostLine` loses one.
- Two resolvers at once can both insert a row for a new address
  (`SharedHistory.ConcurrentDuplicates`). `SharedHistory.HistoryIff` says exactly which
  interleavings keep the history of every address, `SharedHistory.UndisturbedIff` says
  it by what happens between a SELECT and the write that follows from it, and
  `SharedHistory.ApartKeepsHistory` shows that resolvers at work on different addresses
  always do.
- A query with a placeholder is never the only one with its rewritten text, and some
  without one are not either (`potdb/db.go:102-112`): `Params.OnlyQueryIff`. Among
  queries without a '$' the rewriting is one to one.

## Model

| member | source | states |
|---|---|---|
| Frames.ParseStream | cmd/psql/psql.go:79-102 | a stream of frames parses back to exactly the messages written if and only if no payload is so long that its length wraps 32 bits |
| Frames.ReceiveFrame | cmd/psql/psql.go:79-102 | one frame with anything behind it is received as that message with the rest left over when its length fits, and as something else or a panic when it does not |
| Frames.CodecRoundTrip | cmd/psql/buf.go:25-88 | writing typed fields and reading with the same list of readers gives the fields and leaves the trailing bytes if and only if every int32 is in signed range, every int16 in unsigned range and every string without NUL |
| Frames.FrameBytes | cmd/psql/buf.go:90-94 | a frame byte by byte: type, length of itself and the payload with the most significant byte first, payload |
| Frames.Int32Bytes | cmd/psql/buf.go:66-70 | an int32 goes out with its most significant byte first |
| Frames.Int16Bytes | cmd/psql/buf.go:72-76 | so does an int16 |
| Bytes.BigEndian | cmd/psql/psql.go:89 | four bytes are written from and read as their value, the first one counting most |
| Slices.Append | cmd/psql/buf.go:66-88 | append writes just past the window when capacity suffices and otherwise moves to a new array and leaves the old one as it was |
| Slices.PutUint32 | cmd/psql/buf.go:90-98 | patching four bytes in a window changes those bytes and no others, in the array and seen through the window |
| Buf.ReadBuf.Int32 | cmd/psql/buf.go:25-29 | takes a signed 32-bit value off the front and leaves the rest |
| Buf.ReadBuf.Oid | cmd/psql/buf.go:31-35 | takes an unsigned 32-bit value: its four bytes and the rest are what was there |
| Buf.ReadBuf.Int16 | cmd/psql/buf.go:37-42 | takes an unsigned 16-bit value |
| Buf.ReadBuf.String | cmd/psql/buf.go:44-49 | takes the bytes up to the first NUL and skips the NUL |
| Buf.ReadBuf.Next | cmd/psql/buf.go:51-55 | hands out the next n bytes as a window of the same array |
| Buf.ReadBuf.Byte | cmd/psql/buf.go:57-59 | takes one byte |
| Buf.WriteBuf.constructor | cmd/psql/psql.go:162-168 | a buffer over a type byte and four stale bytes has an empty open message of that type |
| Buf.WriteBuf.Int32 | cmd/psql/buf.go:66-70 | extends the open message, leaves closed ones alone, and the buffer is where it was or in a new array |
| Buf.WriteBuf.Int16 | cmd/psql/buf.go:72-76 | the same for the low 16 bits |
| Buf.WriteBuf.String | cmd/psql/buf.go:78-80 | the same for a string and its NUL |
| Buf.WriteBuf.Byte | cmd/psql/buf.go:82-84 | the same for one byte |
| Buf.WriteBuf.Bytes | cmd/psql/buf.go:86-88 | the same for a slice, with the bytes it had at the call even if it is a window of the buffer's own array |
| Buf.WriteBuf.Wrap | cmd/psql/buf.go:90-94 | what is handed to the connection is the stream of all messages, and only the open length was patched |
| Buf.WriteBuf.Next | cmd/psql/buf.go:96-101 | the open message is closed as it is and an empty one of the new type is opened |
| Buf.WriteMessages | cmd/psql/buf.go:61-101 | for every sequence of writer calls, over any stale bytes and any number of moves to new arrays, the result is the stream of the messages written and parses back to them if and only if no length wraps |
| NulList.NullTermToStrings | cmd/psql/psql.go:59-69 | the loop yields the NUL-terminated strings in order |
| NulList.NulStringsOfTerminated | cmd/psql/psql.go:59-69 | encoding strings and decoding them is the identity, tail included, if and only if they hold no NUL |
| NulList.TerminatedOfNulStrings | cmd/psql/psql.go:59-69 | the decoded strings and the tail determine the bytes |
| NulList.SplitIsNulStringsAndTail | cmd/psql/psql.go:186 | for every byte string, splitting on NUL gives the terminated strings and then the unterminated tail |
| Pieces.JoinOfSplit | cmd/psql/psql.go:186 | the pieces of any text hold no separator and, joined, are the text |
| Pieces.SplitOfJoin | cmd/psql/psql.go:35-57 | pieces without the separator are found again when they were joined |
| NulList.FindUser | cmd/psql/psql.go:187-191 | the search indexes out of range exactly when the last piece is "user", and otherwise finds the piece after the last "user" that has one |
| NulList.UserIndexInRange | cmd/psql/psql.go:186-191 | it never does so for a body that ends in NUL; over all bodies it does exactly for the unterminated tail "user" |
| NulList.UserFound | cmd/psql/psql.go:186-191 | for a well-formed body the user found is that of the last "user" parameter, or the name following a later value "user" |
| NulList.UserRightIff | cmd/psql/psql.go:186-191 | that is the protocol's user exactly when no value at or behind the last "user" parameter is "user" or the following name happens to equal it; it is always wrong for a user called "user" |
| Clients.StartAfterSsl | cmd/psql/psql.go:104-140 | after any number of SSL requests of any length, told by their code and each answered with 'N', the startup body is read and nothing beyond it |
| Clients.NoPacketSession | cmd/psql/psql.go:104-140 | an input that ends before or inside the startup packet reports nothing; a length below eight panics |
| Clients.UnansweredRequest | cmd/psql/psql.go:122-127 | if the answer to an SSL request cannot be written, the session ends and reports nothing |
| Clients.RecvAfterNotices | cmd/psql/psql.go:142-160 | any number of 'N' messages is skipped, whatever follows |
| Session.EventPerStartup | cmd/psql/psql.go:173-220 | over every input and every way writes fare: exactly which inputs panic; one event exactly when a startup packet was read and nothing panics, else none, and its user and parameters are those of the packet; the output only grows, by 'N's before the startup packet |
| Clients.RunSession | cmd/psql/psql.go:173-220 | behind SSL requests and any startup body with a searchable user: the 9 bytes of the request for a password go out, and then what was received decides |
| Clients.LostSession | cmd/psql/psql.go:195-200 | when that request meets the end of the connection: one event with the user and the parameters and no password, whatever the client sent |
| Clients.SilentSession | cmd/psql/psql.go:201-206 | a client that leaves, breaks off inside a message or sends an 'E' message, after any notices: one event with the user and the parameters and no password |
| Clients.BrokenSession | cmd/psql/psql.go:79-102 | a length below four or an empty message in place of the password: a panic and no event |
| Clients.AnsweredSession | cmd/psql/psql.go:173-220 | a password message: one event with the message less its last byte, and the rejection, however the two writes fare |
| Clients.WholeSession | cmd/psql/psql.go:173-220 | for well-formed parameters, a NUL-terminated password and no failing writes: exactly one event with that password and the parameters, output 'N' per SSL request and two messages, given byte by byte, that parse back |
| Session.ErrorFieldsReadBack | cmd/psql/psql.go:211-219 | the rejection reads back as the seven fields it was written from |
| Clients.RejectionIs | cmd/psql/psql.go:211-219 | the rejection is an 'E' message of these seven texts, the third with the user's name |
| Clients.OneParameter | cmd/psql/psql.go:35-57 | a client that gives only a user name other than "user" is reported with that name and with its parameter list joined by bars |
| Handler.Handler.RecvMessage | cmd/psql/psql.go:79-102 | refines receiving one frame; the payload is a window of scratch or in an array of its own |
| Handler.Handler.RecvStartMessage | cmd/psql/psql.go:104-140 | refines the startup phase; the body is in an array of its own |
| Handler.Handler.Recv | cmd/psql/psql.go:142-160 | refines the wait for a message |
| Handler.Handler.NewWriteBuf | cmd/psql/psql.go:162-168 | a buffer at the start of scratch with an empty open message |
| Handler.Handler.Send | cmd/psql/psql.go:169-171 | writes the stream of the buffer's messages |
| Handler.EventQueue.SendEvent | cmd/psql/psql.go:35-57 | reports what the parameter slice holds when the goroutine runs |
| Handler.Handler.Reject | cmd/psql/psql.go:211-219 | the rejection goes out, the startup slice keeps its bytes, and the event sent at whatever point is that of the bytes received |
| Handler.Handler.Converse | cmd/psql/psql.go:201-219 | refines the part after the authentication request |
| Handler.Handler.HandleClient | cmd/psql/psql.go:173-220 | for every input, every way writes fare and every point at which the goroutine runs, the session over shared arrays has the events, output and panic of the session over values |
| Address.MatchesIff | resolver/resolve.go:171 | scanning for the pattern finds a match exactly when the address contains 1-3 digits, a dot, 1-3 digits and a dot |
| Geo.NewestIsLast | resolver/resolve.go:180-184 | in a history the query has one answer, the last row of the address, and all others are more than 28 days older |
| Geo.HistoryInsertIff | resolver/resolve.go:190-213 | an INSERT keeps the history if and only if the newest row of the address, if any, is over 28 days older and of another location |
| Geo.HistoryTouchIff | resolver/resolve.go:205-208 | an UPDATE of last_update keeps it if and only if it hits the newest row of its address |
| Cache.Cache.Set | cache/cache.go:29-31 | maps the key and nothing else |
| Cache.Cache.Get | cache/cache.go:34-40 | the mapped value, or 0 and false |
| Cache.Cache.Delete | cache/cache.go:43-45 | unmaps the key and nothing else |
| Cache.Cache.Clear | cache/cache.go:48-52 | leaves the cache empty |
| Resolver.ResolveClient.LookUp | resolver/resolve.go:170-217 | refines a lookup on values, and asks the geo service exactly when that does |
| Resolver.ResolveClient.Resolve | resolver/resolve.go:85-93 | a hit changes nothing and asks nobody; a miss is a lookup |
| Resolver.ResolveClient.Insert | resolver/resolve.go:159-168 | a row with a new id is appended, or nothing changes and 0 is returned |
| Resolver.ResolveClient.ResolveEvent | resolver/resolve.go:113-157 | database, cache, both ids and the error are those of the operation on values |
| Runs.LookupFindsNewest | resolver/resolve.go:170-217 | every lookup leaves a compressed history extending the old one; a failed one changes nothing and returns 0; a successful one returns the newest row of the normalised address, which has not expired |
| Runs.LookupWrites | resolver/resolve.go:170-217 | exactly when the geo service is asked and when a lookup succeeds; after an answer the newest row of the address is at the location answered, the same row touched if it was there and a new one otherwise |
| Runs.LookupIsFor | resolver/resolve.go:170-184 | the row is one of the address itself if a dotted pair of numbers stands in it, and otherwise one of 127.0.0.1 |
| Runs.LookupAgain | resolver/resolve.go:170-217 | asking again spares the geo service exactly while the row has not expired, which takes at least 28 days, with the same id and no change |
| Runs.EventFromDatabase | resolver/resolve.go:133-156 | an id is 0 exactly when its address failed, a remote failure leaves the origin half alone, the error is nil exactly when both lookups and both marks succeeded; each half marks the event exactly when it succeeded, with a row of its address, and no other event changes |
| Runs.EventFromCache | resolver/resolve.go:118-131 | when both addresses are cached: the cached ids, the event marked with them, an error exactly when a mark failed, and no lookup |
| Runs.EventElse | resolver/resolve.go:113-131 | an event without an id is refused; one not cached on both sides is looked up |
| Runs.RunKeepsInv | resolver/resolve.go:85-217 | over every run: compressed histories, references that resolve, live cache entries, and rows that change only their last_update |
| Runs.RunFromStart | resolver/resolve.go:103-217 | the location an event was marked with is the same after every further run |
| Runs.HitIsFresh | cache/cache.go:54-59 | what the cache answers was confirmed at most 31 days and 48 hours ago |
| Runs.StepAgreesIff | resolver/resolve.go:118-151 | a step keeps cache and table in agreement exactly when it does not cache a resolved origin under an address that is looked up differently |
| Runs.RunAgreesIff | resolver/resolve.go:118-151 | a run has agreement throughout exactly when all its steps are of that kind |
| Runs.UnderOriginAgrees | resolver/resolve.go:149-151 | keyed by origin (a deviation), every reachable cache entry names a row of its address |
| Runs.RemoteLeftMappedTo | resolver/resolve.go:139-151 | as written, an event that misses the cache leaves the remote address mapped to a row of the origin's address if that resolved, which is one of its own exactly when both are looked up as the same; otherwise to a row of its own; otherwise unchanged |
| Runs.RemoteStaysWrong | resolver/resolve.go:139-151 | after every run before and every run behind such an event, the id still names a row of the origin's address, and one of the remote's exactly in that case |
| Runs.SpoiledRun | resolver/resolve.go:139-151 | a run from the start after which a cached id names a row of another address |
| Interleave.InterleavingKeeps | resolver/resolve.go:113-217 | in every interleaving of single statements of any number of resolvers, what each of them holds, every event and every cache entry name existing rows, of the right address unless the cache is used as written |
| Interleave.ReferentialIntegrity | schema/psql/schema_psql.sql:15-29 | so every geo id of an event is NULL or names a row |
| Interleave.ForeignKeyRefusesZero | resolver/resolve.go:143-154 | the foreign key refuses an update exactly when the lookup before it failed |
| Interleave.AloneIsProcessed | resolver/resolve.go:113-157 | the statements of one resolver without interruption are ResolveEvent as a whole |
| SharedHistory.HistoryIff | resolver/resolve.go:170-217 | for every interleaving of any number of resolvers: the table is a compressed history throughout if and only if every INSERT and UPDATE meets a table that it fits |
| SharedHistory.UndisturbedIff | resolver/resolve.go:170-217 | if at most 14 days pass between SELECT and write: throughout if and only if at each INSERT the newest row is still what the SELECT found, and at each UPDATE still the one updated |
| SharedHistory.ApartKeepsHistory | resolver/resolve.go:170-217 | resolvers that are never between SELECT and write for the same address at once keep the history, however slow they are |
| SharedHistory.ConcurrentDuplicates | resolver/resolve.go:189-198 | two prompt resolvers both insert a row for a new address, and the history is broken |
| Proxy.GatherConserves | cmd/proxy.go:154-172 | what was queued and arrived is what was dequeued followed by what is left |
| Proxy.GatherFits | cmd/proxy.go:154-163 | the batch is at most 9 MiB, and the last dequeued item is left out for its size exactly when all together would exceed that |
| Proxy.GatherDecodes | cmd/proxy.go:164-170 | everything in the batch decodes, and what stopped the drain as undecodable does not |
| Proxy.GatherLongest | cmd/proxy.go:154-172 | no longer run of what the queue offered would fit and decode |
| Proxy.GatherShrinks | cmd/proxy.go:140-172 | with nobody enqueuing, a drain of a nonempty queue takes something |
| Proxy.NothingDroppedIff | cmd/proxy.go:154-172 | a drain stops neither at an item over the limit nor at one that does not decode if and only if what the queue offers, arrivals included, has a front part that fits and decodes and then fills the batch or is followed by a failing dequeue or nothing |
| Proxy.LosesNothingIff | cmd/proxy.go:140-182 | every dequeued item is sent if and only if there is such a front part and the transporter takes the batch, or the first dequeue fails |
| Proxy.QuietLosesNothingIff | cmd/proxy.go:140-182 | without producers: if and only if the transporter takes the batch and some first n items queued fit and decode and are all there is or fill the batch exactly |
| Proxy.TwoItems | cmd/proxy.go:154-163 | two items are both sent if together they are 9 MiB or less; otherwise the second is lost |
| Proxy.LosingQueue | cmd/proxy.go:161-163 | so two equal items, each fit to be sent, can lose the second |
| Proxy.Relay.Collect | cmd/proxy.go:154-172 | the loop computes what the gathering on values says and decodes the batch in order |
| Proxy.Relay.Drain | cmd/proxy.go:140-182 | queue, accepted items, fates and batches afterwards, on every path; the account of all items stays exact; and exactly when all that was dequeued was sent |
| Proxy.Relay.DrainToEnd | cmd/proxy.go:132-137 | repeated drains without producers empty the queue |
| Proxy.Relay.Send | cmd/proxy.go:208-211 | appends to the queue, or reports the error and changes nothing |
| Proxy.Relay.ServeHTTP | cmd/proxy.go:184-206 | which requests are answered 202, and that these enqueue the single read's bytes padded with zeros to the announced length unless the queue fails, which the answer does not show |
| Proxy.Relay.Safety | cmd/proxy.go:132-182 | at any time every accepted item is queued or has one fate, and the delivered events are an order-preserving subsequence of the accepted items, each at most once |
| Proxy.SentAreSubsequence | cmd/proxy.go:173-181 | the sent items have strictly increasing positions among the accepted, and the positions left out are those with another fate |
| Batch.HandleBatch | aws/lambda/events.go:127-168 | the events in place, the table and the result are those of looking up the distinct addresses in order and running the loop on the ids; a batch that fails leaves the table of the lookups that succeeded; after one that succeeds every event has the source address as its origin (127.0.0.1 for "test-invoke-source-ip"), and over a history its two ids name rows of that origin and of the address that came up last as new |
| Batch.LoopAsks | aws/lambda/events.go:143-155 | each distinct address is looked up once, in order, and remembered with its id |
| Batch.LoopGives | aws/lambda/events.go:143-159 | every event gets the batch's origin and the id of the address that came up last as new (with the memo's value, a deviation, of its own) |
| Batch.LoopFailsIff | aws/lambda/events.go:143-155 | the loop ends without an error if and only if every event has an address and every distinct address is found |
| Batch.LoopStops | aws/lambda/events.go:143-155 | otherwise it stops at the first event that fails |
| Batch.RightForAllIff | aws/lambda/events.go:143-159 | with distinct ids, all events are right if and only if equal addresses stand next to each other |
| Batch.WrongBatch | aws/lambda/events.go:143-159 | one address before and behind another: the third event gets the id of the second |
| Batch.DistinctAre | aws/lambda/events.go:143-155 | the addresses looked up are those that occur, each once |
| Batch.BatchLocates | aws/lambda/events.go:117-168 | together with the resolver: an event's id names a row of the address that came up last as new, and of its own exactly if the two are looked up as the same |
| Params.ReplaceParams | potdb/db.go:102-112 | the rewriting loop ends and equals one pass from the left; MySQL text is untouched |
| Params.NumberedNoMarks | potdb/db.go:102-112 | no '?' is left, and text without one is unchanged |
| Params.PlaceholderIs | potdb/db.go:102-112 | each '?' becomes '$' and the numeral of its place, without leading zeros, whatever stands around it |
| Params.OnlyQueryIff | potdb/db.go:102-112 | a query is the only one with its rewritten text if and only if it has no '?' and "$1" does not occur in it |
| Params.InjectiveWithoutDollar | potdb/db.go:102-112 | queries without a '$' that become the same text are the same, digits behind placeholders or not |
| Params.RoundTrip | potdb/db.go:102-112 | a query without a '$' is recovered from its text |
| Params.Collision | potdb/db.go:102-112 | every query with a '?' becomes the same text as that text itself, which is another query |
| Params.PlaceholderFor | potdb/db.go:102-112 | every query with a "$1" and no '?' becomes the same text as the one with a '?' in its place |
| Decimal.ParsePrint | api/event.go:43-56 | printing and parsing integers are inverse on 64-bit values, and no others parse |
| Decimal.PrintIs | api/event.go:52-56 | an integer is printed as its digits without a leading zero, behind a minus sign if negative |
| Decimal.ParseDigits | api/event.go:44 | digits with or without a sign parse to their value as far as it fits in 64 bits |
| Decimal.OnlyDigitsParse | api/event.go:44 | nothing else parses |
| EventTime.EventTime.MarshalJSON | api/event.go:52-56 | the decimal numeral of the milliseconds |
| EventTime.MarshalIs | api/event.go:52-56 | that numeral is the digits, without a leading zero, of the milliseconds rounded toward 1970, behind a minus sign if negative |
| EventTime.UnixNanoIs | api/event.go:53 | an instant whose nanoseconds exceed 64 bits has the value they wrap around to |
| EventTime.EventTime.UnmarshalJSON | api/event.go:43-50 | the instant of the milliseconds, or an error and no change |
| EventTime.MillisRoundTrip | api/event.go:43-56 | milliseconds survive decoding and encoding exactly when their nanoseconds fit in 64 bits, negative ones included |
| EventTime.InstantRoundTrip | api/event.go:43-56 | an instant survives encoding and decoding up to less than a millisecond, toward 1970 |
| EventTime.RoundTripMonotone | api/event.go:43-56 | which keeps the order of instants |
| Lines.TakeLineIs | cmd/pop/pop.go:86 | a line read through a buffered reader is the first of what is buffered and to come, however it is split |
| Lines.Reader.ReadLine | cmd/pop/pop.go:86 | the reader takes that line and keeps the rest |
| Lines.TrimIs | cmd/pop/pop.go:60-64 | a trimmed line is the line without carriage returns, spaces and line feeds at both ends |
| Lines.TrimUnique | cmd/pop/pop.go:60-64 | and nothing else is |
| Lines.ParseIs | cmd/pop/pop.go:60-64 | name and arguments hold no space and, joined by spaces, are the trimmed line |
| Lines.ParseCommand | cmd/ftp/ftp.go:65-70 | a name, a space, an argument and CR LF parse to that command |
| Pop.HandleConnection | cmd/pop/pop.go:78-113 | events and replies are those of the session on the concatenated input, whatever the reads |
| Pop.EventsAreReports | cmd/pop/pop.go:96-112 | one event for each PASS before the first QUIT, with the argument of the latest USER |
| Pop.RepliesAre | cmd/pop/pop.go:96-112 | each USER is accepted and each PASS refused, in order, up to the first QUIT, and nothing else is answered |
| Pop.LoginSession | cmd/pop/pop.go:78-113 | a client that sends USER, PASS and QUIT: one event with its name and password, and the three replies |
| Pop.NoArguments | cmd/pop/pop.go:66-72 | without arguments name and password are empty |
| Ftp.ReadCommand | cmd/ftp/ftp.go:116-123 | a command from a new reader; what it buffered beyond the line is gone |
| Ftp.HandleConnection | cmd/ftp/ftp.go:72-114 | events, replies and panic are those of the session on the lines that new readers find |
| Ftp.ReportsLikePop | cmd/ftp/ftp.go:90-113 | however the writes fare: it panics exactly when a USER or PASS that it gets to lacks an argument, and otherwise reports what the POP trap would of these commands |
| Ftp.HeardIs | cmd/ftp/ftp.go:90-109 | it gets to the commands before the first QUIT and before the first USER whose reply cannot be written |
| Ftp.RepliesAre | cmd/ftp/ftp.go:90-113 | each of them is answered, in order |
| Ftp.LoginSession | cmd/ftp/ftp.go:72-114 | a client that sends USER, PASS and QUIT in lines that are read: one event with its name and password, and the three replies |
| Ftp.LinesReadIff | cmd/ftp/ftp.go:116-123 | the lines read are the lines sent if and only if a chunk that ends a line early is followed by no other line end |
| Ftp.LostLine | cmd/ftp/ftp.go:116-123 | of two lines in one read, the second is lost |
| Ftp.LastByteOnly | cmd/ftp/ftp.go:116-123 | in particular when newlines come only as last bytes of chunks |

## Left out

- Ports, host names and times in events, reverse lookups, logging, configuration, deployment: no logic of their own.
- The order in which goroutines of different events reach the queue: events are listed in the order in which they were started, except that the PostgreSQL event is sent at any point the scheduler picks.
- SQL engines and drivers: a statement is a function of the tables; a failed INSERT inserts nothing; columns hold values exactly; a column for a float holds a real number.
- Runs.RunKeepsInv: assumes that clocks do not run backwards and that the geo service answers for the address asked, because a history has no order otherwise.
- Runs.HitIsFresh: assumes that the timer clears the cache every 48 hours, because it is a sleeping goroutine.
- Cache.Cache.Get: the test for a key and the read are one step, because the cache is only modelled as atomic operations.
- The underlying concurrent map and the durable queue: their operations are atomic.
- Decoding of events from JSON: any partial decoder that rejects the empty text.
- Proxy.Relay.Drain: an item counts as sent when the transporter reports no error; the HTTP client of `api/event.go:151-153` reports none even after its retries failed.
- Storing a batch (`event/event.go`): only whether it succeeds.
- `aws/lambda/events.go` Handle: it is the steps Record and Process of a run.
- `Insert` of `potdb/db.go` and the other wrappers that only pass a query on.
- The HTTP trap, the hub and the stream: base64 and commented-out code.
- Buffers of a `bufio.Reader` of limited size: a chunk is what one read delivers.
