# EcliPanel: verified models

Dafny models of the parts of EcliPanel and its reverse proxy EcliHalo in which the logic, and not
the plumbing, carries the promise. `dafny verify dfyconfig.toml` checks everything.

| modules | models | main results |
|---|---|---|
| `Proto`, `ProtoLaws` | the hand-written HTTP/1 parsers | equal to a reading of the header lines as fields; what is accepted and what each value means, from the text alone; a decision is final and inside the buffer |
| `H1Rewrite`, `H1RewriteLaws`, `H1HeaderLaws` | the head sent to an upstream | parsing what was written gives the same request back; exactly which header fields arrive |
| `H1Relay`, `H1ChunkLaws` | fixed-length and chunked body relays | bytes are conserved however they arrive; exactly which chunked bodies pass |
| `H1Response` | relaying a response | what the client gets, byte for byte |
| `UpstreamPool` | the pool of idle connections | every connection is at one place; queues stay bounded |
| `H1Serve`, `H1ServeLaws`, `H1FateLaws`, `H1RunLaws` | the keep-alive loop | pipelined requests are taken once each, in order, and arrive as sent; what becomes of each request; every run ends for a stated cause; accounting comes out even |
| `RateLimit`, `RateLimitLaws` | the sharded token bucket limiter | refines one map that never forgets; burst + rate * time; each answer in numbers; denied calls are free |
| `Balancer`, `BalancerLaws` | choosing an upstream | floor or ceiling of a fair share over every run of picks |
| `FormatMigration` | single-brace to double-brace formats | a translation of templates; lossless; exactly which strings it leaves alone; what a failed run leaves behind |
| `Csv` | CSV export | reads back as the guarded table, if and only if no row is empty |
| `Ics` | calendar export and import | import undoes export, if and only if the texts are one-line and trimmed |
| `ApiClient` | the gate for GET calls | eight at a time, first come first served, one fetch per path |
| `WingsSocket` | the reconnecting socket | one socket, one timer, a lost connection is always retried, none after close, bounded delays |
| `Forms` | slugs of application forms | what a slug is made of; slugs stay distinct over every sequence of requests |
| `RateTable` | the per-address request table | bounded size, order of eviction, passes in 60 seconds: at most 999, and exactly when at most 500 |
| `Permissions` | permission patterns | a preorder; what a granted permission adds |

`Text`, `Numbers`, `Finite` and `Buffers` hold what these share. Bytes are characters, one per byte. A stream
(`Buffers.Source`) delivers what is unread in arbitrary non-empty pieces, and a read or write of an
unreliable peer may fail at any point. What the proxy asks of its surroundings (static files,
limiter, cache, balancer, connecting, the upstream's answer) is given as a `World` for each
request; the results hold for all worlds, and say which world explains which outcome. The code that mutates state is modelled by classes and loops, each
method proved equal to a function; the laws are about those functions and the runs they generate.

## Where the code and what one expects of it differ

The models follow the code. Each difference below is a proved statement.

- `parse_response_fast` slices out of range exactly for a readable status line with no header line
  (`Proto.ResponsePanicsIff`). Of a stream of well-formed requests in a working environment, the
  loop panics if and only if it gets to a request whose upstream answers that way, or whose route
  skips more than 32 header names (`H1RunLaws.WholeRun`); with at most 24 names to set or remove
  and no such answer it never panics (`H1Serve.Serve`). The release profile aborts on a panic
  (halo/Cargo.toml), so the whole process ends; in a build that unwinds, the connection is dropped
  and the request stays counted (`H1Serve.Leaked`).
- A chunked response reaches the client intact if and only if no body byte was buffered with its
  head; buffered body bytes are delivered twice (`H1Response.ChunkedDeliveredIff`).
- A chunked request body passes if and only if it has no trailer and no chunk above 128 MiB
  (`H1ChunkLaws.BodyRelayedIff`); trailers stay in the stream (`H1ChunkLaws.TrailerLeftBehind`).
- The rewritten head does not announce chunking, so an upstream cannot frame the chunked body that
  follows it, unless there is a content-length that happens to fit (`H1ServeLaws.BodySeenIff`).
- A request answered without an upstream is in step with the client if and only if it has no body
  (`H1ServeLaws.LocalInStepIff`).
- The limiter's cleanup pass removes nothing when the burst size is positive
  (`RateLimit.CleanupKeepsIff`).
- Round robin is even across the wrap-around of its counter if and only if the number of healthy
  upstreams divides 2^64 (`BalancerLaws.RoundRobinWrapIff`).
- Translating a format twice is the same as once if and only if the first translation is left
  alone by another (`FormatMigration.IdempotentIff`, with `FormatMigration.FixedIff` saying for
  every string when that is); for templates without literal braces, if and only if there is no
  variable. Otherwise the second run undoes the first (`FormatMigration.SecondRunUndoes`), and a
  failed save in the middle makes that happen (`FormatMigration.MigrateAfterFailure`).
- An empty row of a CSV table reads back as one empty cell (`Csv.RoundTripIff`).
- The request table holds an address to 500 requests in the next 60 seconds if and only if it has no
  bucket, a used-up one, or one whose window does not end in between (`RateTable.LimitKeptIff`);
  999 is the most (`RateTable.SpanBound`, `RateTable.BoundReached`).

## Model

| member | source | states |
|---|---|---|
| Proto.MethodOf | halo/src/proto.rs:17-32 | a method is recognised if and only if its name is one of the nine, in upper case |
| Proto.FindHeadersEnd | halo/src/proto.rs:313-315 | the end of the first blank line, or none if and only if there is no blank line |
| Proto.TrimCrlf | halo/src/proto.rs:317-326 | drops one final LF and then one final CR, and nothing else |
| Proto.LTrim | halo/src/proto.rs:328-334 | the loop drops all leading spaces and tabs and nothing else |
| Proto.Last | halo/src/proto.rs:88-128 | of several header lines with one name the last one counts |
| Proto.ParseRequestFast | halo/src/proto.rs:70-141 | the one-pass loop equals the declarative reading: request line, then for each framing name the last field |
| Proto.FieldsAppend | halo/src/proto.rs:97-128 | one more header line overwrites what its name governs and nothing else |
| Proto.HeadersEndStable | halo/src/proto.rs:313-315 | more input does not move the end of a head |
| Proto.HeadersEndOfPrefix | halo/src/proto.rs:313-315 | no strict prefix of a head looks like a head |
| Proto.RequestFastStable | halo/src/proto.rs:70-141 | once decided, the same on every extension; an accepted head ends in the buffer at its first blank line and is accepted on its own |
| Proto.RequestFastWaits | halo/src/proto.rs:71-74 | on every strict prefix of an accepted head the parser waits |
| Proto.ParseResponseFast | halo/src/proto.rs:210-257 | the loop equals the declarative reading, the out-of-range slice included |
| Proto.ResponsePanicsIff | halo/src/proto.rs:211-229 | the slice is out of range if and only if a readable status line is directly followed by the blank line |
| Proto.ResponseFastStable | halo/src/proto.rs:210-257 | once decided, the same on every extension, with the head inside the buffer |
| Proto.ChunkSize | halo/src/proto.rs:295-311 | a size is at most 128 MiB, its line lies in the buffer; incomplete if and only if there is no LF |
| Proto.ChunkSizeStable | halo/src/proto.rs:295-311 | once decided, the same on every extension |
| ProtoLaws.RequestAcceptedIff | halo/src/proto.rs:70-141 | a head is incomplete exactly without a blank line, and accepted if and only if its first line is a method, a space and a UTF-8 path, and every line before the first empty one has a colon |
| ProtoLaws.FieldsAre | halo/src/proto.rs:95-103 | the fields are those lines in order: the name before the first colon, the value after it without leading blanks |
| ProtoLaws.LineAcceptedIff | halo/src/proto.rs:75-86 | when a first line is a request line |
| ProtoLaws.RequestMeans | halo/src/proto.rs:70-141 | every value of an accepted request from its text: method, path and version, and from the last line of each name the host before its port, the decimal length, chunking, closing, upgrade and expectation |
| ProtoLaws.ContentLengthIs | halo/src/proto.rs:112-115 | decimal digits, perhaps after a plus sign and zeros and between white space, are read as their number up to 2^64 - 1, and as none above |
| ProtoLaws.NumberRefused | halo/src/proto.rs:112-115 | a value that is empty or has anything but digits after an optional plus sign is no number |
| ProtoLaws.ResponseMeans | halo/src/proto.rs:210-257 | the same for responses, with the status the three digits after the ninth character write |
| ProtoLaws.HexSizeIs | halo/src/proto.rs:295-311 | hexadecimal digits in any case are read as their number up to 128 MiB, and refused above |
| ProtoLaws.Utf8Iff | halo/src/proto.rs:83-85 | the check for UTF-8 accepts exactly the encodings of sequences of characters, as section 3 of RFC 3629 writes them |
| ProtoLaws.TrimmedIs | halo/src/proto.rs:317-326 | what is cut off a line |
| ProtoLaws.SizeRefused | halo/src/proto.rs:295-311 | a size with a character that is no hexadecimal digit is refused |
| Numbers.DigitsAreNumber | halo/src/proto.rs:112-115 | every run of digits is some number with zeros in front, so the laws about lengths leave nothing out |
| H1Rewrite.PutRequestLine | halo/src/h1.rs:660-674 | writes method, path and version, with `/` for a path that holds a line break |
| H1Rewrite.PutHeader | halo/src/h1.rs:676-690 | appends exactly one header line |
| H1Rewrite.PutSetLines | halo/src/h1.rs:685-690 | appends the configured header lines in order |
| H1Rewrite.PutAdded | halo/src/h1.rs:685-705 | configured lines, then the forwarding headers that are neither configured nor, for x-forwarded-for, already in the head |
| H1Rewrite.CollectSkip | halo/src/h1.rs:707-722 | filling the 32 slots in place gives the names of `SkipList`; `H1HeaderLaws.HeadersReach` says what that does to the head |
| H1Rewrite.PutKept | halo/src/h1.rs:724-736 | passes on exactly the lines with a colon and a name not skipped, up to the first empty one |
| H1Rewrite.RewriteRequest | halo/src/h1.rs:652-738 | whatever the buffer held, it holds exactly the rewritten head, whose fields `H1HeaderLaws.HeadersReach` gives |
| H1RewriteLaws.WireHeadEnd | halo/src/h1.rs:652-738 | clean lines on the wire form one head that ends at their end |
| H1RewriteLaws.FieldsOfWire | halo/src/h1.rs:652-738 | parsing the written lines gives the fields that were written |
| H1RewriteLaws.KeptFields | halo/src/h1.rs:723-736 | passing lines on filters the parsed fields by name |
| H1RewriteLaws.LastFilter | halo/src/h1.rs:723-736 | filtering keeps the last field of a name that is not skipped and removes one that is |
| H1RewriteLaws.RewrittenFields | halo/src/h1.rs:652-738 | the fields of the rewritten head: host and connection, the added ones, the received ones filtered |
| H1RewriteLaws.RewrittenFraming | halo/src/h1.rs:652-738 | host and connection as configured, length and expectation as received, no chunking, no upgrade |
| H1RewriteLaws.RewriteRoundTrip | halo/src/h1.rs:652-738 | for every accepted head and every configuration that leaves framing alone, parsing the rewritten head gives method, path, length and expectation back, host and connection replaced, and the head ends where the output ends |
| H1HeaderLaws.HeadersReach | halo/src/h1.rs:652-738 | from the parsed fields before and after: a removed name is gone, a configured one occurs once with its value, host, connection, x-real-ip, x-forwarded-proto and x-forwarded-for are the proxy's, the hop-by-hop names are gone, and every other field is there as received, in order |
| H1HeaderLaws.EachName | halo/src/h1.rs:685-736 | all fields of one name in the rewritten head |
| H1HeaderLaws.UnnamedOut | halo/src/h1.rs:724-736 | what is not dropped arrives as received, in order |
| H1HeaderLaws.SkipCount | halo/src/h1.rs:707-721 | how many slots a configuration needs |
| H1Relay.StreamFixedBody | halo/src/h1.rs:358-385 | on success the first `length` bytes of buffer and stream were written and the rest remains, however it was read; on failure a prefix |
| H1Relay.FillTo | halo/src/h1.rs:415-440 | reading moves bytes from stream to buffer and stops short only at the end of the stream |
| H1Relay.AwaitChunkSize | halo/src/h1.rs:397-410 | the size line read equals that of the whole stream; an invalid one is retried to the end of a request, and fails a response |
| H1Relay.OneChunk | halo/src/h1.rs:394-444 | one turn passes one whole chunk on or ends where the relay function ends |
| H1Relay.StreamChunkedBody | halo/src/h1.rs:387-445 | on any bytes in any pieces: exactly the relay's prefix is written, the rest is buffered or unread |
| H1Relay.StreamChunkedResponse | halo/src/h1.rs:512-570 | the same towards the client, with invalid sizes as errors |
| H1ChunkLaws.SizeLineRead | halo/src/proto.rs:295-311 | a size line with extensions, written as in section 7.1 of RFC 9112, white space before the semicolon included, is read as its number unless that is above 128 MiB |
| H1ChunkLaws.RelayChunks | halo/src/h1.rs:430-443 | chunks are passed whole, one after the other; a chunk too large stops the relay before it |
| H1ChunkLaws.BodyRelayedIff | halo/src/h1.rs:387-445 | a body of section 7.1 of RFC 9112, followed by anything, is relayed exactly and successfully if and only if it has no trailer and no chunk above 128 MiB; never more than the body is taken |
| H1ChunkLaws.TrailerLeftBehind | halo/src/h1.rs:415-427 | with a trailer all but its last bytes stay in the stream, where the next request is looked for |
| H1ChunkLaws.OversizedStops | halo/src/h1.rs:396-411 | in front of a chunk above 128 MiB a request relay ends quietly and a response relay with an error, after exactly the chunks before it |
| H1ChunkLaws.TruncatedFails | halo/src/h1.rs:430-440 | a stream that ends inside a chunk fails the relay, which has passed that chunk's size line on |
| H1Response.AwaitHead | halo/src/h1.rs:455-508 | reading the head loses nothing and ends with a head, a panic, or for the stated cause: refused by the parsers, too much before its end, the end of the stream, a peer that fails |
| H1Response.CopyBody | halo/src/h1.rs:473-490 | copies the announced number of bytes, or all |
| H1Response.DrainLeftover | halo/src/h1.rs:845-854 | discards a prefix of what is unread |
| H1Response.StreamResponse | halo/src/h1.rs:447-510 | every end has its cause in the bytes sent and the peers: what is relayed reaches the client as `Delivered` says, the connection is reusable only for a framed, not closing response, a failure is a bad head, a bad body or a failing peer |
| H1Response.CrashIsSent | halo/src/proto.rs:210-257 | a relay that panics was sent a status line without header line |
| H1Response.SettledEnd | halo/src/h1.rs:447-510 | for an accepted head and reliable peers the end is determined: a panic if and only if the fast parser panics, otherwise relayed if and only if the body can be |
| H1Response.FixedDelivered | halo/src/h1.rs:460-482 | a response of known length arrives exactly, with what was buffered beyond it |
| H1Response.ChunkedDeliveredIff | halo/src/h1.rs:463-468 | a chunked response arrives as sent if and only if no body byte was buffered; buffered ones arrive twice |
| H1Response.UnframedDelivered | halo/src/h1.rs:483-491 | a response without length arrives up to the end of the stream |
| UpstreamPool.UpstreamPool.QueueFor | halo/src/upstream.rs:57-65 | the queue of an address exists afterwards, others are untouched |
| UpstreamPool.UpstreamPool.TryGet | halo/src/upstream.rs:21-23 | the connection idle longest leaves its queue and is in use; none if the queue is empty |
| UpstreamPool.UpstreamPool.Get | halo/src/upstream.rs:25-44 | none if and only if the queue is empty and connecting fails; what is handed out was not in use |
| UpstreamPool.UpstreamPool.Release | halo/src/upstream.rs:46-51 | the connection goes to the end of its queue if that holds fewer than 256, else it is closed |
| UpstreamPool.UpstreamPool.Discard | halo/src/upstream.rs:53-55 | the connection is closed, queues unchanged |
| UpstreamPool.PopKeeps | halo/src/upstream.rs:21-23 | taking from a queue makes exactly that connection no longer idle |
| UpstreamPool.PushKeeps | halo/src/upstream.rs:46-51 | putting back a connection that is not idle keeps every connection idle at most once |
| H1Serve.AwaitRequest | halo/src/h1.rs:106-127 | reads until a head is accepted; gives up only for the stated reason, with nothing lost, and on a read error only for a failing client |
| H1Serve.TakeBody | halo/src/h1.rs:297-308 | on success the request's body, and nothing more, has left the stream and reached the upstream; between reliable peers it fails if and only if a chunked body breaks off |
| H1Serve.Open | halo/src/h1.rs:263-282 | the request is counted and holds the connection idle longest or a new one, or neither; neither if and only if no idle one is there and connecting fails, which is a failure of the upstream |
| H1Serve.Close | halo/src/h1.rs:310-352 | the count is taken back; the connection goes to the end of its queue if it can be reused and fewer than 256 are there, otherwise it is closed |
| H1Serve.SendHead | halo/src/h1.rs:284-286 | the upstream gets exactly the rewritten head, unless it fails |
| H1Serve.Exchange | halo/src/h1.rs:284-352 | the upstream got the rewritten head and then exactly the body of the turn that was taken, and the outcome is explained by its answer; without a turn, by too many names, a body that breaks off, a failing peer or an answer without header line |
| H1Serve.Decide | halo/src/h1.rs:130-261 | the chain of questions comes to the plan for the request, which `H1FateLaws.PlanMeans` spells out, with the interim answer sent exactly when due, unless the client fails |
| H1Serve.BeforeProxy | halo/src/h1.rs:128-261 | an answer without an upstream takes the head only and keeps the connection as planned; a request to be proxied leaves the buffer untouched; the loop is left only for a failing client or a tunnel |
| H1Serve.Proxy | halo/src/h1.rs:250-352 | on every exit but a panic counters and connections in use are as before; the connection is back in its queue exactly after an answer that allows it, otherwise closed; everything but an answer counts as a failure; the outcome, a panic included, is explained by the world; on a panic that unwinds one count is left |
| H1Serve.OneRequest | halo/src/h1.rs:128-353 | one iteration takes one request from the front of the stream with the fate its world has in store and goes on exactly if that keeps the connection, or leaves for a stated cause |
| H1Serve.CarefulRunsOn | halo/src/h1.rs:707-721 | with at most 24 names to set or remove and no answer without header line, no request makes the loop panic |
| H1Serve.Serve | halo/src/h1.rs:90-356 | every run takes consecutive requests, each with the fate its world has in store, the proxied ones forwarded as rewritten head and body; it ends with the first turn that does not keep the connection or for a stated cause; books even unless it panics, and never a panic in careful surroundings |
| H1Serve.RunAppend | halo/src/h1.rs:105-353 | a run goes on where it ended |
| H1ServeLaws.ParseAtFrame | halo/src/h1.rs:106-127 | whatever prefix of the stream is buffered, the parser sees the first request or waits |
| H1ServeLaws.BodyIsTaken | halo/src/h1.rs:297-308 | of a body framed as section 6.3 of RFC 9112 says, exactly the body is taken |
| H1ServeLaws.TurnIsFrame | halo/src/h1.rs:105-308 | a turn taken where a request stands is that request, and the stream goes on behind it |
| H1ServeLaws.LocalInStepIff | halo/src/h1.rs:156-244 | after a local answer the stream is at the next request if and only if there was no body |
| H1ServeLaws.BareFrame | halo/src/proto.rs:70-141 | a bare request line of any method and any sensible path is a well-framed request, so the laws about runs are not empty |
| H1ServeLaws.InOrder | halo/src/h1.rs:105-353 | in every run over a stream of requests the turns are the requests, one for one, in order, each with its own body |
| H1ServeLaws.NotHopeless | halo/src/h1.rs:106-127 | while a request is left, the loop does not give up for want of input, size or syntax |
| H1ServeLaws.AllAnswered | halo/src/h1.rs:105-353 | a run that ends for such a reason has taken every request |
| H1ServeLaws.ExactlyOnce | halo/src/h1.rs:105-353 | whatever the surroundings, a run that ends with the stream has taken each request exactly once; `H1RunLaws.WholeRun` says when it does |
| H1ServeLaws.UpstreamSees | halo/src/h1.rs:284-308 | what was sent for a request parses as that request, host, path and connection replaced, with the body right behind |
| H1ServeLaws.BodySeenIff | halo/src/h1.rs:652-738 | the upstream frames the forwarded body as the client did if and only if it was not chunked or a content-length fits it |
| H1ServeLaws.EachForwarded | halo/src/h1.rs:105-353 | end to end: each proxied request of the client's stream arrives at its upstream as that request |
| H1FateLaws.PlanMeans | halo/src/h1.rs:130-261 | which requests go to an upstream, are answered here, are refused or are handed over, from request, route and world alone |
| H1FateLaws.FatesFit | halo/src/h1.rs:105-353 | in every run: a turn went to an upstream, or found none to reach, if and only if host, limiter, static files, tunnels, cache and balancer let it; was answered or refused here if and only if they say so; and nothing else reached an upstream |
| H1FateLaws.StopsAt | halo/src/h1.rs:128-353 | a run goes on after a turn exactly for a keep-alive request answered here or with a reusable response |
| H1FateLaws.LimitedIsRefused | halo/src/h1.rs:217-222 | a request the limiter refuses loses only its head, reaches no upstream and stops the run |
| H1FateLaws.AnsweredMeans | halo/src/h1.rs:465-491 | the connection is kept exactly if neither side asked to close and the head tells where the response ends |
| H1FateLaws.TooManyIff | halo/src/h1.rs:707-721 | the names to be skipped are too many exactly above 32 |
| H1FateLaws.GeneralAsked | halo/src/proto.rs:63-68 | the general parser is asked exactly when the fast one does not accept |
| H1FateLaws.GivesUp | halo/src/h1.rs:106-127 | the loop gives up on an incomplete head at 16 KiB, on a shorter one at the end of the stream, on a malformed one at once |
| H1RunLaws.AnswerEnd | halo/src/h1.rs:320-352 | the answer of a working upstream is relayed with the connection kept, unless it panics |
| H1RunLaws.TurnGoesOn | halo/src/h1.rs:105-353 | in working surroundings every turn keeps the connection and none is out of step |
| H1RunLaws.EndsByCrash | halo/src/h1.rs:105-353 | in working surroundings nothing but a panic ends the loop in front of a request, and only with its cause |
| H1RunLaws.TurnsAreFrames | halo/src/h1.rs:105-353 | as far as a run gets, its turns are the requests, in order, each kept alive |
| H1RunLaws.WholeRun | halo/src/h1.rs:90-356 | from the client's requests and the surroundings alone: all requests are taken once each, in order, and the run ends with the stream, if none makes it panic; otherwise the run ends in front of the first that does |
| RateLimit.RateLimiter.Check | halo/src/ratelimit.rs:52-86 | one call on the shard array equals one step of the sharded specification, whose answers `RateLimitLaws.FirstCall` and `RateLimitLaws.NextCall` give in numbers |
| RateLimit.LevelLater | halo/src/ratelimit.rs:76-79 | capped refills compose |
| RateLimit.StepLevels | halo/src/ratelimit.rs:71-85 | a call is admitted if and only if the level of its address is at least one, and costs that address one token |
| RateLimit.EvictionKeepsLevels | halo/src/ratelimit.rs:64-69 | the cleanup pass changes no level |
| RateLimit.StepAgrees | halo/src/ratelimit.rs:60-85 | one sharded call agrees with one call of the plain limiter |
| RateLimit.LimiterRefinesPlain | halo/src/ratelimit.rs:52-86 | every sequence of calls is answered as by one unsharded map that never evicts |
| RateLimit.DeniedIsInvisible | halo/src/ratelimit.rs:76-85 | leaving out a denied call changes no other answer of the plain limiter |
| RateLimit.DeniedCallIsFree | halo/src/ratelimit.rs:52-86 | the same for the limiter itself |
| RateLimit.AdmittedBound | halo/src/ratelimit.rs:76-85 | what is admitted is paid for by the level at the start and the refill since |
| RateLimit.WindowBound | halo/src/ratelimit.rs:52-86 | in every stretch of every run at most burst size + requests per second * seconds calls of a limited address are admitted, in the configured numbers |
| RateLimit.CleanupKeepsIff | halo/src/ratelimit.rs:64-69 | in reachable states a bucket survives cleanup if and only if the burst size is positive or it was used within 60 seconds |
| RateLimitLaws.FirstCall | halo/src/ratelimit.rs:71-85 | the first call of a limited address is admitted if and only if the burst size is at least one, and leaves one token less |
| RateLimitLaws.NextCall | halo/src/ratelimit.rs:60-85 | a call d seconds after the last one of its address, whatever others do between, is admitted if and only if min(tokens left + d * rate, burst size) is at least one, and leaves that, less one if admitted |
| RateLimitLaws.Unmetered | halo/src/ratelimit.rs:52-58 | with the limiter off, or an address that is or starts with a whitelist entry, every call is admitted and leaves no trace |
| RateLimitLaws.CleanedIff | halo/src/ratelimit.rs:60-69 | a bucket is removed exactly by a limited call in its shard with more than 10000 buckets, when it is full and was idle for 60 seconds |
| RateLimitLaws.UncalledLevel | halo/src/ratelimit.rs:60-85 | calls of other addresses do not touch a level |
| Balancer.Healthy | halo/src/balancer.rs:69-77 | exactly the healthy indices, in order |
| Balancer.FewestOf | halo/src/balancer.rs:93-96 | the first candidate with the fewest active connections |
| Balancer.Choice | halo/src/balancer.rs:52-115 | none if and only if nothing is healthy; a chosen upstream is healthy, and has the fewest connections for that strategy |
| Balancer.Balancer.Pick | halo/src/balancer.rs:52-115 | with its short cuts for none, one and all healthy, equals the choice, and moves the counter only when it is used |
| Balancer.Balancer.Collect | halo/src/balancer.rs:69-77 | one pass finds the healthy list and whether it is complete |
| Balancer.Balancer.MinByKey | halo/src/balancer.rs:93-96 | the loop finds the first minimum |
| Balancer.Balancer.MarkUnhealthy | halo/src/balancer.rs:124-130 | exactly the upstreams with this address become unhealthy |
| Balancer.Balancer.MarkHealthy | halo/src/balancer.rs:132-138 | exactly the upstreams with this address become healthy |
| Balancer.AllHealthy | halo/src/balancer.rs:84-90 | indexing by the counter modulo the number of upstreams is the same choice when all are healthy |
| BalancerLaws.FairShare | halo/src/balancer.rs:83-112 | values at least h apart give each of h values the floor or the ceiling of a share |
| BalancerLaws.OddCancel | halo/src/balancer.rs:105-111 | an odd multiplier permutes the residues of a power of two |
| BalancerLaws.RoundRobinSpread | halo/src/balancer.rs:84-91 | without wrap-around equal round-robin slots are at least h picks apart |
| BalancerLaws.ScrambleSlot | halo/src/balancer.rs:105-111 | for a power of two the slot is linear in the counter, wrapping multiplication included |
| BalancerLaws.RandomSpread | halo/src/balancer.rs:105-111 | for a power of two any h consecutive Random picks differ, even across the wrap-around |
| BalancerLaws.RoundRobinWrapIff | halo/src/balancer.rs:84-91 | round robin is even from every counter value if and only if h divides 2^64 |
| BalancerLaws.ChosenSlots | halo/src/balancer.rs:83-112 | picks in a row take slots in a row |
| BalancerLaws.FairPicks | halo/src/balancer.rs:83-112 | k picks in a row choose each healthy upstream floor(k/h) or ceil(k/h) times |
| BalancerLaws.PickIs | halo/src/balancer.rs:83-112 | each strategy in numbers: which entry of the healthy list the counter or the hash takes, and when the counter moves |
| FormatMigration.First | backend/src/config/index.ts:272-298 | each turn of the translator consumes a non-empty prefix of the rest |
| FormatMigration.TokensLossless | backend/src/config/index.ts:268-301 | for every string the tokens, written in the old syntax, are the string |
| FormatMigration.Rewrite | backend/src/config/index.ts:268-301 | the index loop ends on every string and equals the token translation |
| FormatMigration.TemplatesTranslated | backend/src/config/index.ts:268-301 | every template printed in the old syntax becomes the same template printed in the new one |
| FormatMigration.NameOkIff | backend/src/config/index.ts:282-282 | the pattern accepts exactly white space, a word character, name characters and white space, read from left to right |
| FormatMigration.OthersStay | backend/src/config/index.ts:278-298 | braces around anything but a name, a brace never closed and other characters stay |
| FormatMigration.SecondRunUndoes | backend/src/config/index.ts:268-301 | for literals without braces a second run returns the original |
| FormatMigration.FixedIff | backend/src/config/index.ts:268-301 | for every string: the translation leaves it alone if and only if its tokens agree in both syntaxes, but for variables within single escaped braces |
| FormatMigration.IdempotentIff | backend/src/config/index.ts:268-301 | for every string: twice is once if and only if the first translation is such a string |
| FormatMigration.TemplateIdempotentIff | backend/src/config/index.ts:268-301 | for templates without literal braces: if and only if there is no variable |
| FormatMigration.Store.Migrate | backend/src/config/index.ts:262-321 | without the flag exactly the steps before the first failing save are translated, and the flag is set if and only if no save fails; with it nothing changes |
| FormatMigration.MigrateTwice | backend/src/config/index.ts:264-314 | with the flag a second migration changes nothing |
| FormatMigration.MigrateAfterFailure | backend/src/config/index.ts:264-314 | after a failed and a successful run a step is translated once if and only if the failed run had not saved it or its translation is left alone by another |
| Csv.EscapeCsvValue | frontend/lib/csv-utils.ts:1-16 | a cell is quoted exactly when its guarded text needs it, and in front of anything that ends a field it reads back as that text |
| Csv.RowsToCsv | frontend/lib/csv-utils.ts:18-27 | the loop prints header and rows, lines joined by CR LF |
| Csv.LogsToCsv | frontend/lib/csv-utils.ts:48-61 | the printed table of the header and eight cells for each log |
| Csv.FieldBack | frontend/lib/csv-utils.ts:1-16 | each printed cell reads back as its guarded text |
| Csv.TableBack | frontend/lib/csv-utils.ts:18-27 | a table without empty rows reads back cell for cell |
| Csv.RoundTripIff | frontend/lib/csv-utils.ts:18-27 | a reader for section 2 of RFC 4180 returns the guarded table if and only if no row is empty |
| Csv.RoundTripWithFinalBreakIff | frontend/lib/csv-utils.ts:18-27 | a reader that allows a final line break does, if and only if the last of several rows is not a single empty cell |
| Csv.LogsReadBack | frontend/lib/csv-utils.ts:48-61 | every exported log reads back with eight fields under an unchanged header |
| Csv.GuardedIs | frontend/lib/csv-utils.ts:13-13 | exactly the texts that start with white space, `=`, `+`, `-` or `@` get an apostrophe |
| Csv.LogRowIs | frontend/lib/csv-utils.ts:50-59 | the eight fields of a log row in their order |
| Ics.GenerateIcs | frontend/lib/ics-utils.ts:15-37 | the loop prints preamble, one block for each event, and the end |
| Ics.ParseIcs | frontend/lib/ics-utils.ts:51-84 | the loop equals folding the line step over the split content |
| Ics.StampSlices | frontend/lib/ics-utils.ts:9-13 | date and time are cut out of the printed stamp again |
| Ics.LinesBack | frontend/lib/ics-utils.ts:53-53 | joined lines split into the same lines |
| Ics.BlockBack | frontend/lib/ics-utils.ts:57-82 | a printed block adds exactly its event |
| Ics.CalendarBack | frontend/lib/ics-utils.ts:51-84 | a printed calendar of printable events parses to the same list |
| Ics.ParsedPrintable | frontend/lib/ics-utils.ts:51-84 | whatever the content, the parser yields only events that print back |
| Ics.RoundTripIff | frontend/lib/ics-utils.ts:9-84 | for proper dates and times import undoes export if and only if titles are not empty and no text has a LF or ends in white space |
| Ics.EscapeLfIs | frontend/lib/ics-utils.ts:32-32 | a description is printed with a backslash and an n for each line feed |
| Ics.LineFeedsSurvive | frontend/lib/ics-utils.ts:15-84 | line feeds in descriptions do not break a calendar: every event comes back with its description on one line |
| Ics.CalendarFrame | frontend/lib/ics-utils.ts:16-36 | the five lines before and the line after all events |
| Ics.EventLinesAre | frontend/lib/ics-utils.ts:24-33 | the lines of one event |
| Ics.StepMeans | frontend/lib/ics-utils.ts:57-82 | what one line of any content does to the parser |
| Ics.EventOfMeans | frontend/lib/ics-utils.ts:62-71 | a block without start or end is dropped; a missing summary is Untitled |
| ApiClient.PumpKeeps | frontend/lib/api-client.ts:73-78 | admitting is first come first served and stops at eight or when nobody waits |
| ApiClient.StepKeeps | frontend/lib/api-client.ts:80-109 | calls, starts and ends, in any order, keep the invariant |
| ApiClient.LeaveKeeps | frontend/lib/api-client.ts:95-103 | a fetch that ends was counted, so the counter is never clamped at zero |
| ApiClient.Interleavings | frontend/lib/api-client.ts:69-109 | in every interleaving at most eight run, the counter is admitted minus ended, waiting means eight, admission is in order, and each path has one fetch |
| ApiClient.CallsShare | frontend/lib/api-client.ts:89-90 | a call for a path under way opens no fetch and gets that path's |
| ApiClient.EndAdmitsNext | frontend/lib/api-client.ts:101-104 | the end of a fetch admits exactly the one waiting longest |
| ApiClient.Client.PumpQueue | frontend/lib/api-client.ts:73-78 | the loop equals the recursive admission |
| ApiClient.Client.Fetch | frontend/lib/api-client.ts:80-107 | a call is a step of the gate, and answers with the ticket of its path |
| ApiClient.Client.EndRaw | frontend/lib/api-client.ts:95-103 | success and error both free the path, the slot and the next caller |
| WingsSocket.DelayBounds | frontend/lib/websocket.ts:233-236 | every delay is within a quarter of the back-off, in 750 to 37500 ms |
| WingsSocket.BackoffDoubles | frontend/lib/websocket.ts:233-236 | the back-off doubles up to 30 seconds |
| WingsSocket.StepKeeps | frontend/lib/websocket.ts:96-253 | every event that can happen keeps the invariant, listeners that call connect or close included |
| WingsSocket.Runs | frontend/lib/websocket.ts:96-253 | at most one socket with handlers and one timer; a timer means a url and no intended close; CONNECTED means no timer; a waiting state means something is under way |
| WingsSocket.LostIsRetried | frontend/lib/websocket.ts:176-246 | in every run a connection that is lost or not made leaves exactly one timer, for the same url, with one more try and the pause that belongs to it |
| WingsSocket.FiringTriesAgain | frontend/lib/websocket.ts:242-245 | a timer that fires opens a socket to the same url, or arms the next timer if that throws |
| WingsSocket.OpeningConnects | frontend/lib/websocket.ts:156-164 | a socket that opens is connected, disarms the timer and starts the count again |
| WingsSocket.ConnectTries | frontend/lib/websocket.ts:96-154 | connect opens a socket or arms a timer, unless connected or connecting |
| WingsSocket.CloseForgets | frontend/lib/websocket.ts:110-118 | close takes down socket and timer and forgets tries and success |
| WingsSocket.ListenersHear | frontend/lib/websocket.ts:176-197 | listeners hear of every close, and of a retry if and only if there had been a connection |
| WingsSocket.RestsOnlyIf | frontend/lib/websocket.ts:96-253 | in every run the socket is closed with no timer only before the first event, after a close or after a close for revoked permission |
| WingsSocket.IdleStays | frontend/lib/websocket.ts:96-253 | closed, without a timer or a live socket, nothing happens on its own until the next connect |
| WingsSocket.NothingAfterClose | frontend/lib/websocket.ts:110-118 | in every run, after close nothing happens on its own until the next connect |
| WingsSocket.EmptyUrlIff | frontend/lib/websocket.ts:96-101 | connecting to an empty url keeps the invariant if and only if it is ignored or nothing is under way |
| WingsSocket.RevokedIsFinal | frontend/lib/websocket.ts:176-191 | in every run a close for revoked permission is final until the next connect, whatever listeners do short of connecting |
| WingsSocket.Socket.ConnectTo | frontend/lib/websocket.ts:96-101 | connect as a step; ignored while connected or connecting |
| WingsSocket.Socket.CloseNow | frontend/lib/websocket.ts:110-118 | close as a step |
| WingsSocket.Socket.Create | frontend/lib/websocket.ts:140-154 | the old socket loses its handlers; a failing constructor schedules a retry |
| WingsSocket.Socket.HandleOpen | frontend/lib/websocket.ts:156-164 | the open handler as a step |
| WingsSocket.Socket.HandleClose | frontend/lib/websocket.ts:176-207 | the close handler as a step, with its listeners at their places; `WingsSocket.LostIsRetried`, `WingsSocket.ListenersHear` and `WingsSocket.RevokedIsFinal` say what that does |
| WingsSocket.Socket.ScheduleReconnect | frontend/lib/websocket.ts:229-246 | one timer replaces another |
| WingsSocket.Socket.Handle | frontend/lib/websocket.ts:96-253 | every enabled event keeps the object's invariant |
| Forms.SlugifyForm | backend/src/handlers/applicationHandler.ts:76-85 | every slug is groups of lower-case letters and digits with single hyphens between |
| Forms.SlugifyFixes | backend/src/handlers/applicationHandler.ts:76-85 | slugify is idempotent, and its fixed points are exactly the strings of that form |
| Forms.SlugifyIs | backend/src/handlers/applicationHandler.ts:76-85 | the chain of replacements is one pass: letters and digits stay, white space and hyphens between them become one hyphen, the rest goes |
| Forms.CandidatesDiffer | backend/src/handlers/applicationHandler.ts:93-94 | the thousand candidates are different |
| Forms.SomeCandidateFree | backend/src/handlers/applicationHandler.ts:93-97 | fewer than a thousand other forms leave a candidate free |
| Forms.UniqueSlugFree | backend/src/handlers/applicationHandler.ts:87-99 | then the slug found is no other form's |
| Forms.UniqueSlugIs | backend/src/handlers/applicationHandler.ts:87-99 | the first 90 characters of the slug, or with the least number from 2 to 1000 that makes it free, or with the time |
| Forms.ServedKeeps | backend/src/handlers/applicationHandler.ts:697-843 | creating, updating and deleting keep all slugs distinct |
| Forms.SlugsStayDistinct | backend/src/handlers/applicationHandler.ts:697-843 | over every sequence of requests |
| Forms.CreateMeans | backend/src/handlers/applicationHandler.ts:704-734 | what creating stores, and that it changes nothing else |
| Forms.UpdateMeans | backend/src/handlers/applicationHandler.ts:757-817 | what updating stores, when it keeps the slug, and that it changes no other form |
| Forms.OwnSlugKept | backend/src/handlers/applicationHandler.ts:779-784 | saving a form with its own slug keeps that slug |
| Forms.FormStore.EnsureUniqueSlug | backend/src/handlers/applicationHandler.ts:87-99 | the loop of lookups finds the first free candidate |
| Forms.FormStore.CreateForm | backend/src/handlers/applicationHandler.ts:704-734 | a form with a title gets a new number and a unique slug; without one nothing changes |
| Forms.FormStore.UpdateForm | backend/src/handlers/applicationHandler.ts:757-817 | title and slug as given, a missing slug filled in; refused for a missing form or an empty title |
| Forms.FormStore.DeleteForm | backend/src/handlers/applicationHandler.ts:840-844 | exactly this form is gone |
| RateTable.RateBuckets.Request | backend/src/app.ts:629-652 | the hook with its loops equals one step of the table |
| RateTable.RateBuckets.DropExpired | backend/src/app.ts:636-640 | the two loops delete exactly the expired entries |
| RateTable.RateBuckets.FindOldest | backend/src/app.ts:642-646 | the loop finds the first key with the earliest reset |
| RateTable.RateBuckets.Prune | backend/src/app.ts:635-649 | collecting, deleting and searching equal the pruning function |
| RateTable.Earliest | backend/src/app.ts:642-646 | the first inserted of the entries with the earliest reset |
| RateTable.PrunedKeys | backend/src/app.ts:635-649 | pruning always makes room and adds nothing |
| RateTable.EvictedIff | backend/src/app.ts:635-650 | an entry goes if and only if a new address finds the table full and the entry has expired, or none has and it is the first to reset |
| RateTable.RequestMeans | backend/src/app.ts:629-652 | a request passes unless its address has had 500 in a window of 60 seconds that is not over |
| RateTable.PassedBound | backend/src/app.ts:629-652 | passes within 60 seconds are covered by the bucket's budget and 500 for each early eviction |
| RateTable.SpanBound | backend/src/app.ts:540-652 | never more than 100000 entries; in 60 seconds at most 999 passes of an address, plus 500 for each time its live bucket was evicted |
| RateTable.LimitKeptIff | backend/src/app.ts:629-652 | from any state, an address is held to 500 requests in 60 seconds, early evictions aside, if and only if it has no bucket, a used-up one, or one whose window does not end in between |
| RateTable.BoundReached | backend/src/app.ts:629-652 | 999 is reached without an eviction |
| Permissions.PermissionMatches | frontend/src/middleware.ts:81-92 | the loop holds if and only if the granted parts before the first `*` are a prefix of the required parts |
| Permissions.MatchesIff | frontend/src/middleware.ts:81-92 | a pattern covers exactly what has a narrower scope |
| Permissions.MatchesTransitive | frontend/src/middleware.ts:81-92 | covering is transitive |
| Permissions.MatchesAntisymmetric | frontend/src/middleware.ts:81-92 | patterns without `*` cover each other if and only if they are equal and not empty |
| Permissions.CoversIff | frontend/src/middleware.ts:94-100 | one user may do all another may if and only if it has each of the other's permissions |
| Permissions.RolesMean | frontend/src/middleware.ts:94-100 | three roles and the permission `*` allow everything, no other role anything by itself |
| Permissions.AddingIff | frontend/src/middleware.ts:94-100 | adding a permission changes nothing if and only if it is empty or already implied |

## Left out

- H1ServeLaws.InOrder: covers streams whose heads the fast parser accepts; for others the general parser (httparse) is an arbitrary function assumed to wait on prefixes of a head, not to panic, and to report heads inside the buffer.
- H1RewriteLaws.RewriteRoundTrip: takes the rewritten path as given, without spaces and valid UTF-8; the configured regular expressions of `apply_rewrites` are an arbitrary function.
- H1Rewrite.RewriteRequest: a configuration with more than 32 skipped names is a panic, modelled by its caller `H1Serve.Exchange`.
- H1RunLaws.WholeRun: needs a general parser that waits on parts of a head, and an answer whose head fits the 256 KiB limit whatever the size of one read.
- H1Serve.Serve: CONNECT and WebSocket tunnels end the run; cache insertion, metrics text and log output are not modelled; each exchange has streams of its own, so a pooled connection carries nothing over from an earlier one.
- H1Serve.Exchange: answers of the proxy itself (error pages, static files, cached entries) are arbitrary bytes to the client.
- H1Response.DrainLeftover: stops after a read error, where the source tries again for as long as the error lasts.
- H1Response.StreamResponse: the configured text filters of `apply_response_filters` are left out.
- RateLimit.RateLimiter.Check: amounts are real numbers, so floating-point rounding is not captured; the hash of an address is an arbitrary function and the shard lock makes a call one step.
- Balancer.Balancer.Pick: the hash of the client address is a parameter; picks are atomic, where the code only has an atomic counter.
- H1HeaderLaws.HeadersReach: takes configured names in small letters, each set once; the comparison lowers only the received name, so another spelling never matches.
- Proto.ParseRequestFast: lower-casing and trimming of values are those of ASCII, where Rust also folds and trims other Unicode characters.
- Csv.EscapeCsvValue: the texts String, JSON.stringify and toISOString produce are parameters.
- Ics.RoundTripIff: the clock reading in an identifier is a non-empty run of digits.
- ApiClient.Interleavings: only plain GET calls; other calls do not pass the gate.
- WingsSocket.RevokedIsFinal: a reason given by the server reaches only a socket that has opened, as close frames do.
- WingsSocket.Runs: callers pass a url that is not empty (`EmptyUrlIff` says when an empty one does harm); listeners of one emission run one after the other, each calling connect or close; messages and tokens are left out.
- Forms.SlugsStayDistinct: requests are served one at a time, and the database compares slugs exactly; the root `form-` plus time is unreachable because slugify never returns an empty string; only title and slug of a form are kept.
- RateTable.SpanBound: takes the resolved address as given; the choice among proxy headers is not modelled, nor is the reply for a refused request.
- Sockets, TLS, HTTP/2, HTTP/3, gRPC, certificates, health probing, static files and the rest of the panel (database, mail, two-factor, user interface): I/O and foreign libraries, or easy members.
