# goqa core, modelled in Dafny

goqa is an in-process event bus for Go test-coverage data. A GitHub workflow
posts the output of `go test -json -cover` to a webhook. The webhook checks the
body's HMAC signature and turns each `coverage: 83.3% of statements` line into
a `Coverage` record. The result becomes a `GithubEvent`, which an in-memory
broker hands to its listeners. `Attach` takes each event off a listener, asks
the in-memory roster for the subscribers registered under the event's name,
and `Publish` notifies them in turn. The subscribers do the following:

- publish one `CoverageEvent` per entry to a broker;
- reset an in-memory coverage cache;
- save the entries to a repo;
- mail the event's text over SMTP;
- stream it as a server-sent event.

The project models the sequential behaviour of those pieces:

- Stateful Go objects are Dafny classes whose methods carry `modifies` clauses:
  - the roster, the broker and its listeners;
  - the cache, the subscribers, and the SSE writer.
- Loops become `while`/`for` loops with their invariants, proved against
  specification functions:
  - `Publish`, `Subscribers`, `Keys` and `Reinit`;
  - `CreateGithubEvent`, `GithubEvent.String` and `Smtp.Send`;
  - the coverage subscriber's publishing loop.
- Pure computations are functions with lemmas beside them:
  - id minting and parsing, and the event names and texts;
  - the SSE frame, the JSON error body, and the signature check.
- Collaborators the code only calls are `Collaborator.Recorder` objects: the
  broker seen by a subscriber, the cache, the repo, the mailer and
  `smtp.SendMail`. A Recorder records each call's argument, in order, and
  answers call number k with a fixed k-th reply.

Files: `wrappers.dfy` (Option, Result, Go error values) and `text.dfy` (the
`strconv.Itoa`, `strings.Index`/`LastIndex`/`ReplaceAll` pieces used) support
one file per core source file: `goqa.dfy`, `events.dfy`, `subscriber_base.dfy`,
`roster.dfy`, `broker.dfy`, `dispatch.dfy` (event.go), `sub_coverage.dfy`,
`sub_cachew.dfy`, `sub_repo.dfy`, `sub_email.dfy`, `sub_sse.dfy`, `cache.dfy`,
`hook.dfy` (web/hook/data.go), `web.dfy` and `smtp.dfy`; `collaborator.dfy`
holds the recording collaborator and the stop-at-first-error loop lemmas.

Where the tests and the code disagree, the model follows the code:

- The SSE writer emits `event: \n` for an empty name; its test expects the
  line to be left out.
- The SMTP mailer never resets its buffer; its test expects one block per
  message.
- The memory cache's method is `Reinit`; the `Cache` interface and the tests
  call it `Reset`.

## Model

| member | source | states |
|---|---|---|
| Goqa.EventNamesDistinct | goqa.go:8-14 | `EVENT_GITHUB` and `EVENT_COVERAGE` are different names |
| Goqa.CoverageString | goqa.go:29-31 | the text form `[time] pkg = "pkg" %percentage`; its fields are read back by the two lemmas below |
| Goqa.CoveragePercentageReadBack | goqa.go:29-31 | the text after the last `%` of `Coverage.String()` parses back to the percentage |
| Goqa.CoverageTimeReadBack | goqa.go:29-31 | a time without `]` is read back between the leading `[` and the first `]` |
| Goqa.Subscriber.constructor | goqa.go:72-81 | a subscriber starts with the empty id, nothing received, and its fixed answer |
| Goqa.Subscriber.Notify | goqa.go:79-80 | the Subscriber contract: the event is received once and a fixed error or nil is the only result |
| Goqa.Subscriber.SetID | goqa.go:76-77 | the id a roster hands over is what `ID()` returns afterwards |
| Events.Name | events.go:20-49 | `Name()` of a non-nil event; only an event of a foreign kind can carry the `EVENT_GITHUB` name |
| Events.EventText | events.go:25-53 | `String()` of a non-nil event; a GithubEvent's text opens with its header |
| Events.GithubNameIsCoverage | events.go:20-22 | a GithubEvent is named `EVENT_COVERAGE` and never `EVENT_GITHUB`, whatever its fields, by value or pointer |
| Events.CoverageEventNameIsCoverage | events.go:47-49 | a CoverageEvent is named `EVENT_COVERAGE` |
| Events.GithubEventString | events.go:25-42 | the loop builds the header then one `Coverage.String()` plus newline per entry; the header is a prefix and an empty list gives the header alone |
| Events.BodyEntry | events.go:37-39 | entry i's text is its own line, after the lines of all entries before it and before those after it (list order) |
| Events.BodyNewlineCount | events.go:37-39 | with newline-free entries the body holds exactly one real newline per entry |
| Events.HeaderHasNoNewline | events.go:27-35 | the header's separators are backslash-`n` pairs: with newline-free fields it has no real newline |
| Events.CoverageStringNewlineFree | goqa.go:29-31 | `Coverage.String()` of newline-free fields has no newline |
| Events.CoverageEventText | events.go:51-53 | the CoverageEvent text as written, with the package in the percentage slot; see the next row |
| Events.CoverageEventTextIgnoresPercentage | events.go:51-53 | as written, the CoverageEvent text is the same for every percentage (the slot repeats the package) |
| Events.CoverageEventTextIntendedReadsPercentage | events.go:51-53 | with the percentage in its slot, the text up to the next `;` reads back as the percentage |
| Events.GithubOf | subscriber/coverage/subscriber_coverage.go:24-31 | the subscribers' type switch: a GithubEvent by value or by pointer yields its fields, any other event (nil included) yields nothing |
| SubscriberBase.SentinelsDistinct | subscriber/subscriber.go:7-13 | `ErrSerializeNotSupported` and `ErrUnsupportedEvent` differ |
| SubscriberBase.Identifiable.constructor | subscriber/subscriber.go:16-18 | the zero Identifiable has the empty id |
| SubscriberBase.Identifiable.SetID | subscriber/subscriber.go:20-26 | after `SetID(x)`, `ID()` is `x`; a later SetID overwrites it |
| Roster.Mint | roster/memory/roster_memory.go:33-35 | an id is the name, a `-`, then a counter holding no `-` of its own |
| Roster.NameOf | roster/memory/roster_memory.go:56-61 | a name is read exactly when the id holds a `-`, and it is the text before the last `-` (no `-` follows it) |
| Roster.MintParse | roster/memory/roster_memory.go:33-35 | the name before the last `-` of a minted id is the name it was minted for, and the text after it is the counter |
| Roster.MintInjective | roster/memory/roster_memory.go:33-35 | two minted ids are equal exactly when their names and counters are |
| Roster.MintedIdFresh | roster/memory/roster_memory.go:33-35 | the next id is held by no subscription, under any name |
| Roster.AddedEntries | roster/memory/roster_memory.go:37-45 | the new entry is stored, the name is added when missing, every other entry is kept and nothing else appears |
| Roster.AddedWellFormed | roster/memory/roster_memory.go:33-45 | Subscribe keeps every id a mint of its own name with a counter already used |
| Roster.RemovedByName | roster/memory/roster_memory.go:61-68 | Unsubscribe deletes the id from the map of the name read from it, if present there |
| Roster.RemovedEntries | roster/memory/roster_memory.go:56-70 | Unsubscribe keeps every name (even one it empties) and deletes at most the one entry |
| Roster.RemovedEverywhere | roster/memory/roster_memory.go:56-70 | in a well-formed registry Unsubscribe deletes the id wherever it is |
| Roster.RemovedWellFormed | roster/memory/roster_memory.go:52-71 | Unsubscribe keeps the registry well formed |
| Roster.SubscribeThenUnsubscribe | roster/memory/roster_memory.go:25-71 | unsubscribing the id a Subscribe just minted restores the registry, except that a first-seen name keeps an empty map |
| Roster.AddedThenRemoved | roster/memory/roster_memory.go:41-68 | removing an id new under its own name undoes adding it |
| Roster.UnsubscribeIdempotent | roster/memory/roster_memory.go:52-71 | unsubscribing twice is unsubscribing once |
| Roster.Memory.constructor | roster/memory/roster_memory.go:19-23 | `New` gives an empty, non-nil registry with counter 0 |
| Roster.Memory.Subscribe | roster/memory/roster_memory.go:25-50 | empty name or nil subscriber: nothing changes, the subscriber's id included; otherwise the counter grows by one, `name-counter` is stored and handed to SetID (a nil registry is created first); nil is returned |
| Roster.Memory.Unsubscribe | roster/memory/roster_memory.go:52-71 | no `-`, unknown name or absent id change nothing; otherwise the one entry is deleted; the counter is untouched and nil is returned |
| Roster.Memory.Subscribers | roster/memory/roster_memory.go:73-96 | one element per subscription under the name, in an order of the ids (each once) left open; nil, with no order, for a nil registry or unknown name |
| Roster.Memory.Close | roster/memory/roster_memory.go:98-100 | returns nil and changes nothing |
| Broker.Listener.constructor | broker/memory/broker_memory.go:24 | a new channel is empty and open |
| Broker.Memory.constructor | broker/memory/broker_memory.go:19-21 | `New` has no listeners |
| Broker.Memory.Listen | broker/memory/broker_memory.go:23-33 | the list grows by exactly the one new, empty listener, which is returned |
| Broker.Memory.Publish | broker/memory/broker_memory.go:35-50 | every listener present receives the event once; the list and the closed flags are unchanged; nil is returned |
| Broker.Memory.Close | broker/memory/broker_memory.go:52-69 | every listener is closed with its queue kept, and the list is emptied |
| Broker.CloseThenPublish | broker/memory/broker_memory.go:42-66 | after Close, a Publish reaches none of the closed listeners |
| Collaborator.StopsAtFirstError | subscriber/coverage/subscriber_coverage.go:33-46 | a loop that returns on the first error makes every call and returns nil iff no call fails, else stops at the first failing call and returns its error |
| Dispatch.CountIsMultiplicity | event.go:29-30 | the deliveries counted per subscriber are its multiplicity in the list |
| Dispatch.FirstFailureIsFirst | event.go:29-33 | the first failing position is the one before which all succeed |
| Dispatch.FailedAmongExactly | event.go:30-33 | the logged positions are exactly the failing ones, each once, in increasing order |
| Dispatch.PublishStep | event.go:30-33 | one round: the subscriber is notified, a failure is logged, and for a nil event the loop stops |
| Dispatch.Publish | event.go:28-35 | the Notify calls go to the list in list order (`notified`, a record of the calls, is the reached prefix), each subscriber gets the event once per listing, failures do not stop later ones and are logged; a nil event crashes at the first failure |
| Dispatch.Deliver | event.go:18-23 | a failed lookup skips the event; otherwise exactly the found subscribers are notified |
| Dispatch.SubscribersOf | event.go:18 | the lookup by name lists the subscriptions under that name, one element per subscription id, all registered; nil and an unknown name give none |
| Dispatch.SubscribedTwiceListedTwice | roster/memory/roster_memory.go:85-93 | a subscriber holding two subscriptions under a name is listed, and so notified, at least twice |
| Dispatch.AttachStep | event.go:15-24 | a drained closed channel ends the loop, stays empty and closed, and closes the broker, every old listener closed with its queue kept; otherwise the next event goes to exactly the subscribers under its name (once per subscription) and the broker and its other listeners are unchanged |
| Dispatch.DeliverNext | event.go:17-23 | the delivering round: the event leaves the channel, the subscribers under its name get it once per subscription, every other subscriber and the channel's closed flag are untouched |
| Dispatch.GithubSubscribersNeverMatched | event.go:17-20 | subscribers registered only under `EVENT_GITHUB` are never found for a GithubEvent |
| CoverageSubscriber.AsEvents | subscriber/coverage/subscriber_coverage.go:33-39 | one CoverageEvent per entry, in order, with the fields copied |
| CoverageSubscriber.PublishedAreCoverageEvents | subscriber/coverage/subscriber_coverage.go:34-38 | every published event is named `EVENT_COVERAGE` |
| CoverageSubscriber.Coverage.constructor | subscriber/coverage/subscriber_coverage.go:15-19 | `New` keeps the broker and starts with the empty id |
| CoverageSubscriber.Coverage.Notify | subscriber/coverage/subscriber_coverage.go:21-47 | non-Github events are refused with `ErrUnsupportedEvent` and nothing is published; otherwise entries are published in order until the first error, which is returned |
| CoverageSubscriber.Coverage.SetID | subscriber/subscriber.go:24-26 | the embedded SetID |
| CachewSubscriber.Cache.constructor | subscriber/cachew/subscriber_cachew.go:8-10 | `New` keeps the cache and starts with the empty id |
| CachewSubscriber.Cache.Notify | subscriber/cachew/subscriber_cachew.go:18-32 | non-Github events are refused and the cache is untouched; otherwise one Reset with exactly the coverage list, whose answer is returned |
| CachewSubscriber.Cache.SetID | subscriber/subscriber.go:24-26 | the embedded SetID |
| RepoSubscriber.Repo.constructor | subscriber/repo/subscriber_repo.go:10-12 | `New` keeps the repo and starts with the empty id |
| RepoSubscriber.Repo.Notify | subscriber/repo/subscriber_repo.go:19-32 | non-Github events are refused and Save is not called; otherwise one Save with exactly the coverage list, whose answer is returned |
| RepoSubscriber.Repo.SetID | subscriber/subscriber.go:24-26 | the embedded SetID |
| EmailSubscriber.Email.constructor | subscriber/email/subscriber_email.go:15-17 | `New` keeps the mailer and the address and starts with the empty id |
| EmailSubscriber.Email.Notify | subscriber/email/subscriber_email.go:25-31 | an empty address gives `ErrEmailEmpty` without mailing; otherwise one Send of name, text and `[address]` for any event kind, whose answer is returned |
| EmailSubscriber.Email.SetID | subscriber/subscriber.go:24-26 | the embedded SetID |
| EmailSubscriber.EmailEmptyIsItsOwnError | subscriber/email/subscriber_email.go:10-13 | `ErrEmailEmpty` differs from both subscriber sentinels |
| SseSubscriber.Field | subscriber/sse/subscriber_sse.go:35-36 | a field value holds no newline after the rewrite |
| SseSubscriber.FieldAroundNewline | subscriber/sse/subscriber_sse.go:35-36 | each newline becomes `_` and the rest is kept |
| SseSubscriber.DataRewriteIsNoop | subscriber/sse/subscriber_sse.go:36-40 | the `\ndata: ` rewrite never changes the data |
| SseSubscriber.Frame | subscriber/sse/subscriber_sse.go:35-40 | the frame opens with `event: ` and ends with the blank line that ends a server-sent event |
| SseSubscriber.FrameFields | subscriber/sse/subscriber_sse.go:39-40 | a frame is one `event:` line with the name, one `data:` line with the text, then a blank line |
| SseSubscriber.NewlineInName | subscriber/sse/subscriber_sse.go:35-40 | newlines in a name are underscores in both lines of the frame |
| SseSubscriber.EmptyNameKeepsEventLine | subscriber/sse/subscriber_sse.go:39 | an empty name still writes `event: ` and a newline |
| SseSubscriber.WriteFrame | subscriber/sse/subscriber_sse.go:34-42 | the two writes append exactly the frame, and the flusher is flushed once |
| SseSubscriber.Writer.Write | subscriber/sse/subscriber_sse.go:39-40 | a write appends to what was written |
| SseSubscriber.Sse.constructor | subscriber/sse/subscriber_sse.go:18-20 | `New` keeps the writer and flusher and leaves the context nil |
| SseSubscriber.Sse.SetID | subscriber/subscriber.go:24-26 | the embedded SetID |
| SseSubscriber.Sse.Notify | subscriber/sse/subscriber_sse.go:29-45 | without a context nothing is written; otherwise the frame is appended and flushed once; nil is returned |
| SseSubscriber.Sse.Serialize | subscriber/sse/subscriber_sse.go:47-49 | always `""` and `ErrSerializeNotSupported` |
| SseSubscriber.Sse.Unserialize | subscriber/sse/subscriber_sse.go:51-53 | always `ErrSerializeNotSupported` |
| SseSubscriber.NotifyTwice | subscriber/sse/subscriber_sse.go:39-42 | two notifications append their frames in call order after the earlier output |
| CacheMemory.IndexByPkg | cache/memory/cache_memory.go:23-26 | the keys of the rebuilt map are exactly the packages of the list |
| CacheMemory.IndexByPkgLastWins | cache/memory/cache_memory.go:24-26 | a package is a key iff it occurs, and maps to its last occurrence |
| CacheMemory.DistinctPackagesAllKept | cache/memory/cache_memory.go:24-26 | with distinct packages every coverage is kept under its own package |
| CacheMemory.Memory.constructor | cache/memory/cache_memory.go:18-20 | `New` holds an empty, non-nil map |
| CacheMemory.Memory.Reinit | cache/memory/cache_memory.go:22-34 | the whole map is replaced by the list keyed by package (not merged); nil is returned |
| CacheMemory.Memory.Get | cache/memory/cache_memory.go:36-43 | a nil map gives nil and false; otherwise found iff a key, with that item, else a zero Coverage |
| CacheMemory.Memory.Keys | cache/memory/cache_memory.go:45-64 | every key exactly once, as many as items; nil for a nil map (the intended answer; the lock pairing is under Left out) |
| CacheMemory.Memory.Close | cache/memory/cache_memory.go:66-69 | the map becomes nil |
| CacheMemory.CloseThenRead | cache/memory/cache_memory.go:66-69 | after Close, Get reports false with nil and Keys is nil |
| CacheMemory.ReinitThenGet | cache/memory/cache_memory.go:22-43 | after Reinit, Get finds exactly the listed packages, each with its last coverage |
| Hook.ParseFixed | web/hook/data.go:56-57 | only non-empty text can parse |
| Hook.ParseFixedWhole | web/hook/data.go:56-57 | a whole number parses to itself |
| Hook.ParseFixedTruncates | web/hook/data.go:56-57 | `n.fraction` becomes n: the fraction is cut off (10.5 gives 10, 7.4 gives 7) |
| Hook.ParseFixedNegated | web/hook/data.go:56-57 | a leading `-` negates the value, so truncation is toward zero |
| Hook.ParsedNumberHasDigit | web/hook/data.go:56-60 | text that parses holds a digit: empty text is skipped |
| Hook.Extract | web/hook/data.go:40-62 | a datum contributes only if its output starts with `coverage: `, with package and time from that same datum |
| Hook.PercentNotInPrefix | web/hook/data.go:50 | the `x < 10` guard never fires once the prefix is there |
| Hook.ExtractReadsNumber | web/hook/data.go:50-57 | the number is the text between the prefix and the first `%` |
| Hook.ExtractCoverageLine | web/hook/data.go:40-62 | `coverage: n.f% ...` gives the coverage n for the datum's package and time |
| Hook.ExtractNeedsPercent | web/hook/data.go:50-52 | an output without `%` contributes nothing |
| Hook.Coverages | web/hook/data.go:37-63 | at most one coverage per datum |
| Hook.CoveragesFromSources | web/hook/data.go:39-62 | coverage k comes from an increasing source position, and every contributing datum is used: input order is kept |
| Hook.NoCoverageLines | web/hook/data.go:40-42 | with no prefixed output there are no coverages |
| Hook.CreateGithubEvent | web/hook/data.go:32-76 | nil payload gives nil; otherwise the six metadata fields are copied and the loop collects exactly the extracted coverages |
| Web.WebErrorsDistinct | web/web.go:27-39 | the four web errors differ |
| Web.Escape | web/web.go:66 | `strings.ReplaceAll` of `"` by `\"`; what it keeps and what reads back is stated by the three Escape lemmas below |
| Web.JsonErrorBody | web/web.go:62-70 | the body is a JSON object opening `{"error":"` and closing `"}` around the escaped text |
| Web.JsonErrorBodyOfNil | web/web.go:63-69 | a nil error gives `{"error":""}` |
| Web.EscapeWithoutQuote | web/web.go:66 | only `"` is escaped: text without one, backslashes and control characters included, is unchanged |
| Web.EscapeReadsBack | web/web.go:66-69 | text without backslashes or control characters reads back from the body as a JSON string |
| Web.EscapeKeepsLoneBackslash | web/web.go:66-69 | an error text `\` leaves a body whose string never ends |
| Web.EscapeJsonReadsBack | web/web.go:66-69 | with full escaping any text reads back from the body as a JSON string |
| Web.HexDecode | web/web.go:80 | decoding succeeds iff the length is even and every character is a hex digit, with half as many bytes |
| Web.HexDecodeEncode | web/web.go:79-85 | decoding undoes lower- and upper-case hex encoding |
| Web.VerifyBody | web/web.go:73-97 | the only error is `ErrPayloadUnverified` |
| Web.VerifyBodyAcceptsIff | web/web.go:73-97 | accepted iff 45 characters, the `sha1=` prefix, and hex that decodes to the HMAC of the body |
| Web.VerifyBodyRejectsMalformed | web/web.go:74-85 | a wrong length, a missing prefix or a non-hex character is rejected |
| Web.SignedBodyAccepted | web/web.go:87-96 | a body signed with the key is accepted, in either hex case |
| Web.OtherBodyRejected | web/web.go:92-94 | a body whose HMAC differs from the signed one is rejected |
| Web.ReadBody | web/web.go:100-123 | never both bytes and an error |
| Web.ReadBodyGate | web/web.go:100-123 | `ErrInvalidRequest` exactly for nil or a method other than POST, PUT, PATCH; a nil body is no error; otherwise the bytes or the read error |
| SmtpEmailer.New | emailer/smtp/emailer_smtp.go:14-21 | the settings are kept |
| SmtpEmailer.Block | emailer/smtp/emailer_smtp.go:39-49 | a block opens with the `To:` line for its recipient and ends with CRLF |
| SmtpEmailer.BlockHeaders | emailer/smtp/emailer_smtp.go:39-49 | a block starts with the `To:` header naming the recipient, then the `Subject:` header, CRLF-terminated |
| SmtpEmailer.Envelopes | emailer/smtp/emailer_smtp.go:33-55 | one envelope per recipient, in order, each with the buffer as written so far |
| SmtpEmailer.EnvelopeAddressesOneRecipient | emailer/smtp/emailer_smtp.go:32-51 | each envelope goes from the configured sender, through the configured host with plain auth, to its one recipient |
| SmtpEmailer.AccumulatedMessages | emailer/smtp/emailer_smtp.go:33-51 | as written, every mail after the first carries all earlier blocks before its own |
| SmtpEmailer.SendOne | emailer/smtp/emailer_smtp.go:39-51 | one round appends the recipient's block and sends the buffer to that recipient alone, from the sender |
| SmtpEmailer.Send | emailer/smtp/emailer_smtp.go:30-59 | recipients are mailed in order, one each, until the first failure, whose error is returned; none means no send and nil |
| SmtpEmailer.SendSeparately | emailer/smtp/emailer_smtp.go:30-59 | the same loop with the buffer reset: each mail holds its recipient's block alone |
| SmtpEmailer.SeparateMailsAddressTheirRecipient | emailer/smtp/emailer_smtp.go:39-51 | with the reset each mail starts with a `To:` header naming its one recipient |

## Left out

- Goroutines, mutexes, WaitGroups and channel blocking. The model runs one
  call at a time, so these locking mistakes, which only matter under
  concurrency, have no counterpart:
  - Listen appends before it locks;
  - Publish never waits on its WaitGroup;
  - Close writes under a read lock;
  - `Subscribers` reads the map before locking.
- CacheMemory.Memory.Keys: the code as written never returns for a non-nil map, even when called alone. It takes a read lock and then calls `Unlock`, which releases a write lock, and Go stops the program with "sync: Unlock of unlocked RWMutex". The model gives the intended answer, the one the cache tests expect: every key once.
- Broker.Memory.Publish: each listener's queue grows by the event at its end, so the queue delivers in publish order. That is one interleaving the code allows but does not promise. Each send runs in its own goroutine, which nobody waits for, on an unbuffered channel, so events published one after another may reach a listener in either order.
- Broker.Memory.Close: closing while `Publish` sends are still pending makes Go panic with "send on closed channel". The close runs in a goroutine nobody waits for, and so do the sends. The model keeps only the outcome where the receiver takes every pending send first: Close keeps the queued events of the channels it closes, and `Attach` drains them (`Dispatch.AttachStep`). The panic is not modelled.
- `Attach` is modelled one loop round at a time (`Dispatch.AttachStep`):
  - `go Publish` runs inline;
  - a failing `Listen` (the memory broker's never fails) is not modelled;
  - `goqa.Closed` is the broker's Close;
  - the log lines are dropped.
- Dispatch.Publish: a failure on a nil event is modelled as the loop stopping (`crashed`), since logging `event.Name()` dereferences nil. Nothing after the crash is modelled.
- SseSubscriber.Sse.Notify, EmailSubscriber.Email.Notify and Dispatch.AttachStep require a non-nil event where the code would read its name. A nil `*GithubEvent` held in the interface, which the subscribers would dereference, is not represented.
- SseSubscriber.Sse.constructor: `ctx` is a flag that `New` leaves unset, as the code does. Nothing in the package sets it.
- Goqa.Subscriber: the abstract subscriber gives the same answer (`failure`) to every Notify, whereas a real subscriber's answer can vary from call to call (the coverage subscriber's, for one, depends on the broker's replies); the concrete subscribers are modelled with their own Notify.
- `http.Flusher.Flush` is a counter. `io.Writer` is a text buffer.
- `smtp.SendMail`, `smtp.PlainAuth`, the broker, cache and repo seen by the subscribers, and the mailer are `Recorder` objects. Their own behaviour is not modelled.
- `Print`, `Json`, the response writer, and `io.ReadAll`/`goqa.Closed` of the request body. `ReadBody` takes the outcome of reading the body as its input.
- Web.VerifyBody: HMAC-SHA1 is a function parameter and `hmac.Equal`'s constant time is not modelled. The key is taken as bytes, and the signature's characters stand for its bytes, so a non-ASCII signature is not measured in UTF-8 bytes.
- Web.ReadString reads JSON strings but not `\u` surrogate pairs.
- Hook.ParseFixed: `strconv.ParseFloat` is modelled only on decimal fixed-point text with an optional sign. Not modelled:
  - exponents, `inf`, `NaN`, hex floats and underscores;
  - float64 rounding of long digit runs;
  - out-of-range `int(v)` conversions.
- Integers are unbounded:
  - the roster's `int` counter does not wrap;
  - percentages are not bounded. The documented 0–100 range is `Goqa.DocumentedPercentage`, an assumption and not an invariant.
- The `Coverage` comment calls the percentage "the nearest integer". The webhook instead truncates with `int(v)`, so 83.7% gives 83, not 84. The model follows the code (`Hook.ParseFixedTruncates`), as does web/hook/data_test.go:95-110, where 10.5% gives 10.
- Nil and empty slices are one `seq` in two places: the `covs` of
  `CreateGithubEvent`, and `Dispatch.SubscribersOf`, which reads a nil answer
  of `Subscribers` as no subscribers. Elsewhere nil is kept apart:
  `Roster.Memory.subs` and `CacheMemory.Memory.items` are optional maps, and
  `Roster.Memory.Subscribers` answers nil for an unknown name and an empty
  list for a name whose subscriptions were all removed.
- Go's map iteration order is left open: `Keys` and `Subscribers` promise a set, not an order.
- `repo/flat`, `web/server`, `web/hook/web_hook.go`, `cmd/` and `roster/roster.go`'s `WatchCtx` are not part of this model. `repo/repo.go` and `emailer.go` only declare interfaces.

## Findings

| source | as written | input that shows it | evidently intended | confidence | as-written member | corrected member |
|---|---|---|---|---|---|---|
| web/web.go:66 | only `"` is escaped in the hand-built JSON body | error text `\` gives `{"error":"\"}`, whose string never ends | a valid JSON string for every error text (backslashes and control characters escaped too) | not executed; medium | Web.EscapeKeepsLoneBackslash | Web.EscapeJsonReadsBack |
| emailer/smtp/emailer_smtp.go:33-51 | the message buffer is declared once and never reset | recipients `a`, `b`: the mail to `b` holds `a`'s block, then `b`'s | one block per message, as emailer/smtp/emailer_smtp_test.go:170-218 expects | not executed; high | SmtpEmailer.AccumulatedMessages | SmtpEmailer.SeparateMailsAddressTheirRecipient |
| events.go:52 | the percentage slot is filled with `c.Pkg` | coverages differing only in percentage (10 and 90) give the same text | the percentage in its slot | not executed; high | Events.CoverageEventTextIgnoresPercentage | Events.CoverageEventTextIntendedReadsPercentage |

In each row the corrected definition sits beside the as-written one:
`Web.JsonErrorBodyEscaped`, `SmtpEmailer.SendSeparately` and
`Events.CoverageEventTextIntended`. The rest of the model keeps the code as
written, so the subscribers' behaviour stays that of the repository.
