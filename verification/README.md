# Arvik: verified model

This project models the parts of the Arvik web framework whose correctness depends on state, time or
interleaving, and proves what their documentation promises of them. `dafny verify dfyconfig.toml`
checks all of it.

## The parts

- **Rate limiting** (`TokenBucket`, `RateLimitStore`, `RateLimitRuns`, `EvictionWindow`). The bucket and
  the sharded store are classes that follow the source method by method; their contracts equate them with
  value-level steps. Runs of steps are compared with one map of buckets that is never swept, with any
  policy that obeys the same refill, and with the advertised wait. Instants are explicit arguments, and a
  run may interleave the lock regions of many threads.
- **Server-Sent Events** (`EventStream`, `SseEvent`, `SseRoundTrip`, `SseBody`). `EventStream` is the
  reader of sections 9.2.5 and 9.2.6 of the WHATWG HTML Standard, written from the standard; the printer
  and the keep-alive timer are proved against it, for single events and for whole streams.
- **Admission and drain** (`Admission`). A transition system whose steps are the atomic operations on the
  shared counter, the spawn, first poll, drop and abort of a task, and the phases of a shutdown. The
  compare-and-swap loop is also given as code.
- **Routing** (`MethodFilter`, `MethodRouter`, `MethodRouterHistory`, `Router`, `Flattening`,
  `RouteConflicts`). A service is a handler or a fixed reply with the layers wrapped around it, so equal
  services mean that a request takes the same way. Shared handler lists are objects with owner counts.
  Flattened routers are compared with routers in which every sub-router is built on its own and mounted.
- **Text decoders** (`Accept`, `PercentDecoding`, `StaticPath`, `ByteRange`), each against a reference:
  section 12.5.3 of RFC 9110, arbitrary encoders, a walk through directories, section 14.1.2 of RFC 9110.
  Strings that the source handles as bytes are byte sequences, and `Utf8` says which of them are `str`.
- **Configuration** (`ConfigTree`, `ConfigEnv`). The recursive merge with its laws, and the environment
  overrides as one merge.
- **Bodies and size limits** (`BodyLimit`). Bodies are objects; limits nest around them to any depth.

`Sequences`, `Text`, `Decimal` and `Wrappers` hold what these share.

## Findings

- Eviction is unobservable if and only if the window is at most `IDLE_TTL` or the capacity is zero
  (`EvictionWindow.EvictionUnobservableIff`). A longer window gets a fresh full bucket too early, and
  nothing in the layer's constructor prevents one.
- The documentation of `Router::route_layer` says that such layers do not run on 405 responses. In
  the code they wrap the whole method router, so they do run around its 405 reply:
  `Router.RouteLayerRunsOn405` is a router that shows it, and `Router.RouteLayersSpare405Iff` says that the
  documented behaviour holds if and only if there are no route layers.
- Flattening keeps every layer around handlers, but a 405 reply of a nested or merged route loses the layers
  of its sub-routers; `Flattening.FlatteningPreservesMiddleware` gives the exact condition and
  `Flattening.NestedLayerMisses405` a program that shows it.
- `negotiate` and `parse_accept_encodings` disagree about an empty candidate, and about nothing else
  (`Accept.AgreementIff`).
- Merging configuration trees is not associative; `ConfigTree.AssociativeIff` says exactly when it is.
- A range whose deciding number does not fit 64 bits is answered 416 even where the standard selects bytes:
  `ByteRange.WideNumeralIsRefused` is such a range, `ByteRange.AnswersIff` the exact condition. Numbers may carry a plus sign, as `str::parse` allows.
- A connection task aborted before its first poll never had a guard and stays counted:
  `Admission.CancelledTaskStaysCounted` is such a run, and `Admission.DrainLeavesCancels` says that a drain
  leaves one count for each such abort and nothing else.
- `json_data` does not normalise line breaks as `data` does. An event whose JSON text holds a raw CR is not
  read back as it was (`SseRoundTrip.RawCrIsLost`); one without is (`SseRoundTrip.DataReadBackIff`,
  `SseBody.StreamRoundTripIff`). JSON writers escape a CR inside strings, so a raw one needs a serializer that
  passes text through, such as a raw JSON value with line breaks between its tokens.
- A bucket of capacity zero returns an infinite wait (`TokenBucket.NeverIffNoCapacity`).
- Route parameters keep some escapes, so parameters that spell different texts, such as a slash and the text
  `%2F`, can reach a handler as one (`PercentDecoding.KeptEscapesCollide`).

## Model

| member | source | states |
|---|---|---|
| TokenBucket.Bucket.constructor | arvik-middleware/src/rate_limit.rs:75-85 | a new bucket is full and refills at capacity / window tokens a second |
| TokenBucket.Bucket.TryConsume | arvik-middleware/src/rate_limit.rs:91-106 | state and answer after a call are those of the value-level step `Consume`, about which the lemmas below speak |
| TokenBucket.ConsumeKeepsSound | arvik-middleware/src/rate_limit.rs:91-106 | from any sound state a call leaves between 0 and capacity tokens, and what it granted plus what is left is at most capacity |
| TokenBucket.Conservation | arvik-middleware/src/rate_limit.rs:91-106 | over any run: requests granted plus tokens left never exceed tokens at the start plus elapsed time times rate |
| TokenBucket.BurstBound | arvik-middleware/src/rate_limit.rs:75-106 | between any two calls of any run at most capacity + elapsed * capacity / window requests are granted |
| TokenBucket.GreedyStaysAhead | arvik-middleware/src/rate_limit.rs:91-106 | against any policy with the same refill and cap that never goes below zero, the bucket is never behind in tokens once its lead in requests is counted as tokens |
| TokenBucket.NeverNeedlesslyStrict | arvik-middleware/src/rate_limit.rs:91-106 | at no point of any run has any such policy granted more requests |
| TokenBucket.WaitIsExact | arvik-middleware/src/rate_limit.rs:91-106 | after a refusal with wait r every call before t + r is refused with exactly the time left, and the first at or after t + r is allowed; refused calls in between cost nothing |
| TokenBucket.RetryAfterHeaderIsTight | arvik-middleware/src/rate_limit.rs:397-409 | waiting a whole number of seconds suffices if and only if it is at least the number in the `retry-after` header |
| TokenBucket.NeverIffNoCapacity | arvik-middleware/src/rate_limit.rs:98-105 | a call is refused with an infinite wait if and only if the capacity is zero |
| TokenBucket.IdleIsFresh | arvik-middleware/src/rate_limit.rs:91-96 | a bucket unused for a whole window behaves exactly like a new one |
| TokenBucket.RunSplit | arvik-middleware/src/rate_limit.rs:91-106 | a run can be cut at any call: the rest is a run from the state reached there |
| RateLimitStore.CreationReadingIsInvisible | arvik-middleware/src/rate_limit.rs:163-164 | a first call answers as if the bucket had been made at the reading it is used with |
| RateLimitStore.Shard.Sweep | arvik-middleware/src/rate_limit.rs:149-156 | the sweep, with a clock reading of its own for each bucket, keeps exactly the buckets seen less than 300 seconds before their reading, untouched |
| RateLimitStore.Shard.Take | arvik-middleware/src/rate_limit.rs:158-166 | the existing bucket, or a new one made at an earlier reading, is used once and stored under its key; no other bucket changes |
| RateLimitStore.Shard.Call | arvik-middleware/src/rate_limit.rs:151-166 | one call on a shard: counter, sweep on every 4096th call, bucket |
| RateLimitStore.CallKeeps | arvik-middleware/src/rate_limit.rs:151-166 | a call leaves its own bucket in its shard and, of the others, all, except that every 4096th call leaves those seen less than 300 seconds ago; the counter goes up by one modulo 2^64 |
| RateLimitStore.BucketStore.constructor | arvik-middleware/src/rate_limit.rs:126-136 | 32 empty shards with counters at zero |
| RateLimitStore.BucketStore.TryConsume | arvik-middleware/src/rate_limit.rs:138-168 | a call changes the shard its key hashes to, as `StoreCall` says, and leaves the other 31 alone |
| RateLimitStore.OneShardChanges | arvik-middleware/src/rate_limit.rs:138-147 | a call changes none of the 32 shards but the one its key hashes to, and leaves its key there |
| RateLimitRuns.SweepSimulates | arvik-middleware/src/rate_limit.rs:151-156 | sweeping any shard at any time, the readings spread over the sweep, keeps the store in step with a map that forgets nothing |
| RateLimitRuns.CallSimulates | arvik-middleware/src/rate_limit.rs:146-167 | a call on any shard gets the answer of the map that forgets nothing, and keeps the two in step, when window <= `IDLE_TTL` |
| RateLimitRuns.EvictionUnobservable | arvik-middleware/src/rate_limit.rs:138-168 | for every hash, every sweep timing and every interleaving of lock regions, those of different shards overlapping in time or not, decisions and waits equal those of one never-swept map, when window <= `IDLE_TTL`; the clock is monotone under each lock and nothing is asked between locks |
| RateLimitRuns.StoreIsPrivateBucket | arvik-middleware/src/rate_limit.rs:118-168 | seen from one key the shared store is a single bucket of its own |
| RateLimitRuns.StoreBurstBound | arvik-middleware/src/rate_limit.rs:54-58 | the burst bound for one key through the sharded, sweeping store |
| RateLimitRuns.StoreNeverNeedlesslyStrict | arvik-middleware/src/rate_limit.rs:138-168 | no feasible rival policy for one key grants more through the store at any point of a run |
| RateLimitRuns.CallsSimulate | arvik-middleware/src/rate_limit.rs:146-167 | runs of whole calls, counter-driven sweeps included, answer like the never-swept map when window <= `IDLE_TTL` |
| RateLimitRuns.ZeroCapacityRun | arvik-middleware/src/rate_limit.rs:146-167 | with capacity zero the store answers like the never-swept map whatever the window |
| RateLimitRuns.ServeAll | arvik-middleware/src/rate_limit.rs:120-168 | a store object serving any list of calls gives the outcomes of `StoreRun`, and those of the never-swept map when the window fits |
| EvictionWindow.IdealRefusesLast | arvik-middleware/src/rate_limit.rs:57-58 | in the run that drains a bucket and returns after the TTL, the never-swept map refuses the last call when window > `IDLE_TTL` |
| EvictionWindow.StoreAllowsLast | arvik-middleware/src/rate_limit.rs:149-164 | in the same run the store allows it, because the sweep made room for a full bucket |
| EvictionWindow.EvictionUnobservableIff | arvik-middleware/src/rate_limit.rs:54-58 | for all runs in clock order on each shard the store equals the never-swept map if and only if window <= `IDLE_TTL` or capacity = 0 |
| EventStream.InterpretTerminated | arvik-sse/src/event.rs:174-227 | text made of whole lines is interpreted line by line, and what follows from the state reached (section 9.2.6 of the WHATWG HTML Standard) |
| EventStream.ReadingDropsCr | arvik-sse/src/event.rs:174-227 | no text whatever makes a client dispatch a message whose data holds a CR (section 9.2.6 of the WHATWG HTML Standard) |
| SseEvent.Event.Data | arvik-sse/src/event.rs:75-90 | stores the data with CRLF and CR turned into LF |
| SseEvent.Event.JsonData | arvik-sse/src/event.rs:163-167 | stores what the serializer made exactly as it is; on its error nothing changes |
| SseEvent.Event.Comment | arvik-sse/src/event.rs:139-152 | stores the comment with CRLF and CR turned into LF |
| SseEvent.Event.Id | arvik-sse/src/event.rs:97-113 | stores the id cut at its first line break, without NULs; an id with neither is stored as it is |
| SseEvent.Event.EventType | arvik-sse/src/event.rs:115-124 | stores the longest start of the type without a line break |
| SseEvent.DropNulsFilters | arvik-sse/src/event.rs:97-113 | dropping NULs works part by part, removes NULs and keeps every other character in its place |
| SseEvent.Event.Retry | arvik-sse/src/event.rs:126-132 | stores the milliseconds modulo 2^64 |
| SseEvent.Event.Serialize | arvik-sse/src/event.rs:174-227 | the bytes are the lines of `FieldLines`, each ended by LF, and one blank line |
| SseEvent.Event.EstimateWireLen | arvik-sse/src/event.rs:230-259 | the accumulated estimate in closed form |
| SseRoundTrip.FieldLine | arvik-sse/src/event.rs:190-222 | the parser reads a printed `name: value` line as that field and that value |
| SseRoundTrip.WireRoundTrip | arvik-sse/src/event.rs:174-227 | a client that reads a printed event followed by anything does what the event says, with nothing left in its buffers, and goes on with the rest |
| SseRoundTrip.SingleEventRead | arvik-sse/src/event.rs:174-227 | read on its own, an event gives back its type, data, id and retry, and a message only if it has data |
| SseRoundTrip.DataReadBackIff | arvik-sse/src/event.rs:163-227 | for any builders, `json_data` included: the data is read back as it is if and only if it holds no CR |
| SseRoundTrip.RawCrIsLost | arvik-sse/src/event.rs:163-167 | an event whose JSON text holds a raw CR, and which is not read back |
| SseRoundTrip.OnlyTerminatorIsEmpty | arvik-sse/src/event.rs:174-227 | no printed field line is empty or contains a line break, so the terminator is the only empty line |
| SseRoundTrip.NormalizedLines | arvik-sse/src/event.rs:75-90 | the lines of the stored data are the lines of the raw text as the standard counts them |
| SseRoundTrip.NoBom | arvik-sse/src/event.rs:174-227 | no event starts with a byte order mark |
| SseRoundTrip.EstimateIsTight | arvik-sse/src/event.rs:230-259 | the UTF-8 length never exceeds the estimate, which is over by exactly one byte per line break in a comment and one per unused digit of the retry field |
| SseRoundTrip.SendBuilt | arvik-sse/src/event.rs:60-227 | from arbitrary strings given to the builders to what a client reads: data line by line, type, id, reconnection time |
| SseBody.DefaultIsEmptyText | arvik-sse/src/keep_alive.rs:42-50 | the default comment frame is the one `text("")` would make |
| SseBody.KeepAliveText | arvik-sse/src/keep_alive.rs:71-75 | the keep-alive frame of a one-line text is a colon, a space, that text and a blank line |
| SseBody.SseBody.constructor | arvik-sse/src/sse.rs:106-150 | the first deadline is one interval after the body is made |
| SseBody.SseBody.PollFrame | arvik-sse/src/sse.rs:178-220 | answer and deadline of one poll: an error only for a stream error, the end only for the end of the stream, the print of a yielded event; for a pending stream a comment frame from the deadline on and nothing before; frames and nothing else restart the timer |
| SseBody.AnswersFollow | arvik-sse/src/sse.rs:178-220 | in every run each answer follows its poll: errors for errors, the end for the end, prints for events, and at most a comment where the stream is pending |
| SseBody.KeepAliveDelivers | arvik-sse/src/keep_alive.rs:71-75 | a keep-alive frame between events leaves a client exactly as it was |
| SseBody.RunDelivers | arvik-sse/src/sse.rs:178-220 | for any mix of polls and timer firings a client that reads the frames does what the yielded events say, in order, and nothing else |
| SseBody.StreamRoundTrip | arvik-sse/src/sse.rs:178-220 | the messages dispatched are exactly those of the data-carrying events, and the same with and without keep-alive |
| SseBody.StreamRoundTripIff | arvik-sse/src/sse.rs:178-220 | for events of any builders the messages dispatched are those of the data-carrying events if and only if no event's data holds a CR |
| SseBody.PutOut | arvik-sse/src/sse.rs:156-220 | a body object that is polled answers each poll of its run as above, errors and ends included, and puts out the frames one after the other |
| SseBody.Transmit | arvik-sse/src/sse.rs:156-220 | the same for the bytes a body object puts out when it is polled |
| SseBody.KeepAliveIffIdle | arvik-sse/src/sse.rs:178-220 | a comment frame goes out exactly when the stream is pending and a whole interval has passed since the last frame of any kind |
| Admission.AtomicUsize.CompareExchangeWeak | arvik-hyper/src/server.rs:830-840 | weak compare and exchange: may fail for no reason, reports the value found |
| Admission.TryAdmitConnection | arvik-hyper/src/server.rs:818-845 | the loop against any environment admits at the first turn whose exchange finds, not spuriously, the value found last, below max; refuses at the first turn that has found max or more; and goes on only while every exchange so far was spurious or found a new value, which it then compares with |
| Admission.AttemptOutcome | arvik-hyper/src/server.rs:822-839 | an exchange refuses exactly at the limit, admits exactly when the counter is still what was seen and it is not spurious, and otherwise leaves the caller with the counter as it now is |
| Admission.FailureIsOthersProgress | arvik-hyper/src/server.rs:830-839 | the loop is lock-free: an exchange that fails, and not spuriously, fails because another connection was admitted or a guard dropped since the caller last looked |
| Admission.StepKeepsInv | arvik-hyper/src/server.rs:818-908 | every step keeps: counter = admitted connections whose guard has not dropped, at most max; a guard never drops at zero |
| Admission.CountIsExact | arvik-hyper/src/server.rs:818-872 | at every moment of every interleaving of loads, exchanges, spurious failures, spawns, polls, drops and aborts the counter is that number and at most max |
| Admission.UnlimitedCount | arvik-hyper/src/server.rs:843-844 | without a limit nobody is refused and the counter is exact modulo 2^64 |
| Admission.SeenWasCurrent | arvik-hyper/src/server.rs:819-841 | the value a caller compares with was the counter at some moment of its own call |
| Admission.RefusalSawFull | arvik-hyper/src/server.rs:822-829 | every refused caller was in its call at a moment when exactly max admitted connections were alive |
| Admission.DrainedMeansEnded | arvik-hyper/src/server.rs:874-908 | after the drain, with or without a connection limit, no task is left and the counter equals, modulo 2^64, the number of tasks aborted before their first poll |
| Admission.LeaksAreCancels | arvik-hyper/src/server.rs:893-896 | at every moment the tasks that never had a guard and are gone are as many as the steps that aborted a task before its first poll |
| Admission.DrainLeavesCancels | arvik-hyper/src/server.rs:874-908 | the counter after a drain is the number of such steps taken, under a limit zero if and only if there was none |
| Admission.CancelledTaskStaysCounted | arvik-hyper/src/server.rs:359-362 | a run of nine steps that ends drained with the counter at one |
| Admission.LeakNeedsAbort | arvik-hyper/src/server.rs:893-893 | such a task exists only if the drain timeout fired |
| Admission.GracefulDrainReachesZero | arvik-hyper/src/server.rs:900-905 | a drain that beats its timeout ends with the counter at zero, with or without a limit |
| Admission.GracefulDrainCanEnd | arvik-hyper/src/server.rs:874-908 | from any state of a drain some way of going on without the timeout ends with every task polled, finished and joined |
| Admission.AbortingShrinks | arvik-hyper/src/server.rs:893-896 | in the abort phase every possible step leaves less work |
| Admission.AbortingIsLive | arvik-hyper/src/server.rs:893-896 | and until the drain is over some step is possible |
| Admission.AbortedDrainEnds | arvik-hyper/src/server.rs:887-899 | from any state of the abort phase the end of the drain is reached |
| Admission.AbortedPathsAreShort | arvik-hyper/src/server.rs:887-899 | no path through the abort phase is longer than the work left |
| MethodFilter.UnionMatches | arvik-core/src/method_filter.rs:49-62 | a union of filters matches a method if and only if one of them does |
| MethodFilter.UnionOverlaps | arvik-core/src/method_filter.rs:83-95 | a union overlaps a mask if and only if one of its parts does |
| MethodFilter.OverlapIsSharedMethod | arvik-core/src/method_filter.rs:49-62 | two masks of methods overlap if and only if some method is matched by both |
| MethodFilter.MethodsAreApart | arvik-core/src/method_filter.rs:64-81 | a method's filter matches that method only, all extension methods sharing one bit; ANY matches every method |
| MethodRouter.ApplyLayersAppend | arvik-router/src/layer.rs:149-151 | applying one layer list after another is applying their concatenation |
| MethodRouter.ArcVec.MakeMut | arvik-router/src/method_router.rs:69-84 | a list other routers share is copied before it is changed, and then nobody else refers to it |
| MethodRouter.MethodRouter.On | arvik-router/src/method_router.rs:99-112 | adds one handler and its mask; every other router keeps its view |
| MethodRouter.MethodRouter.Merge | arvik-router/src/method_router.rs:114-126 | panics if and only if the masks overlap, before any change; otherwise concatenates handlers and layers; every other router keeps its view |
| MethodRouter.MethodRouter.Layer | arvik-router/src/method_router.rs:212-225 | adds one layer; every other router keeps its view |
| MethodRouter.MethodRouter.ExtendLayers | arvik-router/src/method_router.rs:307-314 | adds the layers in order, nothing for none; every other router keeps its view |
| MethodRouter.MethodRouter.WithState | arvik-router/src/method_router.rs:330-353 | binds the state into every handler and keeps mask and layers |
| MethodRouter.MethodRouter.Clone | arvik-router/src/method_router.rs:355-367 | the clone shares both lists, starts with no cache, and changes nobody |
| MethodRouter.MethodRouter.Bake | arvik-router/src/method_router.rs:255-285 | the cache is what folding the current layers over every handler gives |
| MethodRouter.MethodRouter.Call | arvik-router/src/method_router.rs:238-302 | cache or not, dispatch equals folding the current layers over the first matching handler, or the 405 reply |
| MethodRouter.HeadFollowsGet | arvik-router/src/method_router.rs:238-302 | HEAD goes to the first HEAD handler, and where there is none exactly where GET goes |
| MethodRouter.ServedIffRegistered | arvik-router/src/method_router.rs:238-302 | 405 if and only if the method is in no filter nor, for HEAD, in that of a GET handler |
| MethodRouter.OnServes | arvik-router/src/method_router.rs:99-112 | after `on` the requests served before are served as before, the handler gets the other requests its filter matches, and the rest are answered 405, HEAD going the way of GET |
| MethodRouter.MergeServes | arvik-router/src/method_router.rs:114-126 | a merge panics if and only if some method is registered on both sides; after it each side serves its own methods, its handlers inside the layers of the first and then of the second |
| MethodRouter.DispatchBound | arvik-router/src/method_router.rs:330-353 | binding a method router binds the handler each request reaches and leaves layers and 405 replies as they are |
| MethodRouter.BindingSuppliesState | arvik-router/src/method_router.rs:415-438 | a bound router called with the unit state reaches the same function with the same state as the unbound one called with that state |
| MethodRouterHistory.Replay | arvik-router/src/method_router.rs:69-367 | over every history of making, on, layer, extend, merge, bind, clone and call on any number of routers, every answer is that of routers that share nothing and cache nothing |
| Router.Router.AddRoute | arvik-router/src/router.rs:207-215 | appends the route |
| Router.Router.RouteCollected | arvik-router/src/router.rs:218-230 | merges into the first route with the same pattern or appends; panics if and only if `CollectView` is `None` |
| Router.Router.Nest | arvik-router/src/router.rs:253-283 | panics on a sub-router fallback, else appends its routes, prefixed, with its route layers and then its layers pushed on |
| Router.Router.Merge | arvik-router/src/router.rs:290-310 | appends the routes with the other router's layers pushed on; takes its fallback only if there is none yet |
| Router.UnmatchedAfterMerge | arvik-router/src/router.rs:290-310 | an unmatched path reaches the fallback in place, else the other router's, else the 404 reply, through the layers of the first router only |
| Router.RoutesBehind | arvik-router/src/router.rs:253-310 | nested and merged routes come behind those in place, one for one and in order, with the prefix without its trailing slashes in front |
| Router.Router.WithState | arvik-router/src/router.rs:416-443 | the router becomes `BindRouter` of itself; the next two lemmas say what that does to requests |
| Router.BindingBindsHandlers | arvik-router/src/router.rs:416-443 | binding a router binds whatever handler a request reaches, the fallback too, and no layer or fixed reply changes |
| Router.BoundRouterSuppliesState | arvik-router/src/router.rs:416-443 | the service of a bound router takes each request the way the unbound router would with the state at hand |
| Router.RouteLayersSpare405Iff | arvik-router/src/router.rs:385-404 | where no handler matches, the reply goes out without the route layers if and only if there are none |
| Router.RouteLayerRunsOn405 | arvik-router/src/router.rs:385-404 | a concrete router whose 405 reply passes through its route layer |
| Router.Assemble | arvik-router/src/router.rs:192-443 | the router object that runs a program of builder calls, collected routes and state binding included, is the one `Build` describes, panic for panic |
| Flattening.FlatteningPreservesMiddleware | arvik-router/src/router.rs:253-283 | every route of the flattened service, wherever a state was bound, has the pattern and answers with the layers, in the order, it would have if each sub-router were built on its own and mounted, if and only if a handler answers or no sub-router on the way has a layer |
| Flattening.NestedLayerMisses405 | arvik-router/src/router.rs:253-283 | a concrete program whose 405 reply loses the layer of its sub-router |
| Flattening.StackOrder | arvik-router/src/router.rs:513-547 | innermost first: method-router layers, then for each enclosing router outwards its route layers and its layers |
| Flattening.NestingComposes | arvik-router/src/router.rs:253-283 | nesting at p what nests at q equals nesting at trimmed p followed by trimmed q: patterns, stacks and panics |
| RouteConflicts.StrEq | arvik-router/src/router.rs:104-120 | byte-wise comparison decides equality |
| RouteConflicts.RouteConflictCount | arvik-router/src/router.rs:86-102 | 0 if and only if no two entries of one path have a bit in common, which for masks of methods means that no two serve one method of one path; else 1 |
| RouteConflicts.CollectRepresents | arvik-router/src/router.rs:218-230 | registering in order never panics if and only if no two entries conflict |
| RouteConflicts.CheckPredictsRegistration | arvik-router/src/router.rs:86-120 | the count is 0 if and only if running the registrations on an empty router never panics, and that is so if and only if no two of them serve one method of one path |
| Accept.LastWeightDecides | arvik-core/src/accept.rs:22-31 | of the attributes of an entry the last q attribute decides alone |
| Accept.ParseQ | arvik-core/src/accept.rs:72-85 | the loop gives the clamped quality of the last q attribute, 1 without one or when it does not parse |
| Accept.AcceptableRule | arvik-core/src/accept.rs:34-68 | section 12.5.3 of RFC 9110 by positions: the last entry for the coding decides by its weight being more than zero, without one the last `*` entry, and with neither the coding is refused |
| Accept.PrintedHeader | arvik-core/src/accept.rs:12-31 | any header printed from codings and weights, with white space wherever it may stand, is read back as those codings in lower case with those weights or 1, in order |
| Accept.Negotiate | arvik-core/src/accept.rs:42-68 | the allocation-free loop picks the first candidate that the entries accept, and none if and only if they accept none |
| Accept.NegotiateMatchesParsed | arvik-core/src/accept.rs:12-68 | the same choice from the list `parse_accept_encodings` gives, for non-empty candidates |
| Accept.AgreementIff | arvik-core/src/accept.rs:12-68 | loop and parsed list agree on every header if and only if no candidate is empty |
| Accept.DroppedEntriesDoNotMatter | arvik-core/src/accept.rs:18-20 | entries without a coding, which the parser drops, influence no choice |
| Accept.CombinedAcceptEncoding | arvik-static/src/lib.rs:1278-1289 | the header lines joined by comma and space, unreadable ones skipped |
| Accept.CombinedParses | arvik-static/src/lib.rs:1278-1289 | parsing the folded header gives the entries of the lines in order |
| Accept.OneAtATime | arvik-middleware/src/compression.rs:145-159 | asking about one coding at a time in priority order finds what asking about all finds |
| Accept.AcceptedPrecompressed | arvik-static/src/lib.rs:1291-1301 | each of br and gzip is served if and only if it was wanted and the lines, taken together, accept it |
| Accept.PreferredEncoding | arvik-middleware/src/compression.rs:145-159 | the compression layer's loop picks what one negotiation over its enabled codings would: the first of zstd, br, gzip and deflate that is enabled and acceptable |
| Utf8.ValidAroundAscii | arvik-router/src/router.rs:740-745 | a byte sequence is UTF-8 around an ASCII byte if and only if both sides are |
| Utf8.ValidIff | arvik-router/src/router.rs:740-745 | a byte sequence is UTF-8 if and only if it is the encoding of a sequence of scalar values (section 3 of RFC 3629) |
| PercentDecoding.PercentDecode | arvik-router/src/router.rs:720-746 | fast path, loop and fallback give `Decoded`, which is UTF-8 |
| PercentDecoding.MalformedStays | arvik-router/src/router.rs:722-741 | a text in which no escape starts is left alone, malformed escapes included |
| PercentDecoding.DecodeChangesIff | arvik-static/src/lib.rs:1147-1149 | plain decoding changes a text if and only if an escape starts somewhere in it |
| PercentDecoding.HexDigitsOnly | arvik-router/src/router.rs:748-755 | the hexadecimal digits are 0-9, a-f and A-F and no others |
| PercentDecoding.DecodingKeepsStructure | arvik-router/src/router.rs:711-746 | slashes, backslashes, NULs, LFs and CRs of the result are the literal ones of the input: same order, same number of each |
| PercentDecoding.DecodeEncode | arvik-router/src/router.rs:720-746 | decoding undoes an encoding with escaped percent signs if and only if no kept byte was escaped |
| PercentDecoding.DecodingInvertsEncoding | arvik-router/src/router.rs:720-746 | the same for the whole function, UTF-8 fallback included, on every UTF-8 text |
| PercentDecoding.KeptEscapesCollide | arvik-router/src/router.rs:714-717 | `%2F` spells a slash and `%252F` the text `%2F`, as plain decoding tells, and both reach the handler as the text `%2F` |
| StaticPath.ValidPercentEncoding | arvik-static/src/lib.rs:1179-1196 | true if and only if every percent sign is followed by two hexadecimal digits |
| StaticPath.RelativePath | arvik-static/src/lib.rs:1142-1177 | accepts only paths whose percent signs all start escapes and whose decoded text is UTF-8 with no leading slash, backslash, NUL or parent component, refuses only for one of these reasons, and returns the decoded components without empty and `.` ones, joined in order |
| StaticPath.ParentIff | arvik-static/src/lib.rs:1158-1163 | a text has a parent component if and only if two dots stand alone between slashes or its ends |
| StaticPath.EncodedRequest | arvik-static/src/lib.rs:1142-1177 | a text asked for behind any number of slashes in any percent-encoding is accepted for what the text is, and its names are the text's |
| StaticPath.ComponentsKept | arvik-static/src/lib.rs:1158-1171 | of the components the empty ones and single dots go and the others stay, in order |
| StaticPath.CleanTextStays | arvik-static/src/lib.rs:1158-1171 | a text without empty and single-dot components is its own result |
| StaticPath.WalksAgree | arvik-static/src/lib.rs:1158-1177 | walking the decoded components and walking the result end at the same place, and no prefix of the walk leaves the root |
| StaticPath.NormalisedIsClean | arvik-static/src/lib.rs:1151-1156 | the result is UTF-8, does not start with a slash, and has no backslash and no NUL |
| StaticPath.NormalisingAgainChangesNothing | arvik-static/src/lib.rs:1142-1177 | percent-encoding the result in any way that escapes its percent signs and normalising again returns it |
| ByteRange.EveryHeaderIsAnswered | arvik-static/src/lib.rs:1315-1374 | for every header: ignored for exactly the stated reasons, 416 when it spells no range-spec in `u64` numerals, else exactly the positions its range-spec selects, with start <= end < len, or 416 when it selects none |
| ByteRange.AnswersIff | arvik-static/src/lib.rs:1315-1374 | a printed range-spec is answered with exactly the positions it selects, or 416 when it selects none, if and only if the number that decides is a `u64` or nothing is selected (section 14.1.2 of RFC 9110) |
| ByteRange.WideNumeralIsRefused | arvik-static/src/lib.rs:1358-1370 | a range that ends at 2^64 selects the one byte of an asset, and is answered 416 |
| ByteRange.Serve | arvik-static/src/lib.rs:1045-1101 | without a range header that counts the answer is 200 with the whole asset and its length, on HEAD without the body; otherwise it is 206 or 416, and the declared length of a GET response is that of its body |
| ByteRange.ServedAsSelected | arvik-static/src/lib.rs:1045-1101 | with a range header: 206 with exactly the bytes the range-spec selects, their number and their span, or 416 with an empty body when it selects none or there is no range-spec |
| ByteRange.HeadLikeGet | arvik-static/src/lib.rs:1090-1092 | a HEAD request gets the GET answer without the body |
| ByteRange.FetchedSlice | arvik-static/src/lib.rs:1094-1100 | a span inside the asset gives 206 and those bytes |
| ByteRange.SpansReassemble | arvik-static/src/lib.rs:1315-1374 | any partition into consecutive spans, printed, parsed, sliced and concatenated, is the asset |
| ConfigTree.MergeValues | arvik-config/src/lib.rs:628-637 | the in-place merge equals `Merge` in whatever order it meets the members |
| ConfigTree.LookupMerged | arvik-config/src/lib.rs:628-637 | what a merged tree has at any path: the overlay's value merged over the base's, or the base's unless the overlay replaced the way there |
| ConfigTree.MergeTwice | arvik-config/src/lib.rs:628-637 | merging an overlay again changes nothing |
| ConfigTree.MergeAssociative | arvik-config/src/lib.rs:628-637 | two overlays may be folded first when the second is an object only where the first is one or has nothing |
| ConfigTree.AssociativeIff | arvik-config/src/lib.rs:628-637 | and, for all bases, only then |
| ConfigTree.SetPathInPlace | arvik-config/src/lib.rs:796-816 | the descending cursor equals `SetPath` |
| ConfigTree.SetPathIsMerge | arvik-config/src/lib.rs:796-816 | setting a path to a value that is no object is merging the overlay that spells it |
| ConfigEnv.ParseEnvOverride | arvik-config/src/lib.rs:679-772 | no answer exactly for the suffixes no setting spells; otherwise the path of such a setting with the text read as its kind, or the error of that reading |
| ConfigEnv.ValueMeans | arvik-config/src/lib.rs:684-706 | a string setting takes the text as it is, a flag is true for true, 1, yes, on and false for false, 0, no, off in any case, and a number is any numeral of a number its type holds |
| ConfigEnv.KnownSectionIff | arvik-config/src/lib.rs:777-783 | the section of a suffix is what stands before its first underscore, in any case |
| ConfigEnv.SuffixLetters | arvik-config/src/lib.rs:722-772 | a setting is spelled by its section, an underscore and its field, letter by letter in capitals |
| Decimal.ParseIff | arvik-config/src/lib.rs:699-705 | exactly the numerals of numbers up to the largest value parse, with or without a plus sign and leading zeros, and to their numbers |
| ConfigEnv.OneUnderscore | arvik-config/src/lib.rs:640-640 | the prefix ends in one underscore, however many it was given with |
| ConfigEnv.ReadByName | arvik-config/src/lib.rs:642-665 | a variable is left alone without the prefix or when not UTF-8; behind the prefix one that no setting spells is reported exactly if it names a known section |
| ConfigEnv.ApplyEnv | arvik-config/src/lib.rs:639-677 | the first unparsable value ends it with that variable's error; otherwise all overrides are set and unknown names in known sections are reported together |
| ConfigEnv.ReportedErrors | arvik-config/src/lib.rs:653-674 | nothing is reported if and only if every variable parses and none is unknown; a bad value is reported before unknown names and is the first one; otherwise all unknown names are |
| ConfigEnv.OverridesAreOneMerge | arvik-config/src/lib.rs:639-677 | all overrides together are one merge with the overlay they spell out |
| ConfigEnv.OverridesTwice | arvik-config/src/lib.rs:639-677 | setting them all again changes nothing |
| ConfigEnv.PathsReadDistinct | arvik-config/src/lib.rs:679-772 | variables with different names never set one path |
| ConfigEnv.OrderDoesNotMatter | arvik-config/src/lib.rs:639-677 | any two listings of one environment give the same tree, the same unknown names, and an unparsable value in both or neither |
| ConfigEnv.OverridesWin | arvik-config/src/lib.rs:582-600 | an overridden setting reads as its variable says; every other path below a section reads as before |
| ConfigEnv.LastFileWins | arvik-config/src/lib.rs:584-587 | at every path the last file that has anything to say decides, with its value if that is no object, and where no file has the default is read |
| ConfigEnv.Build | arvik-config/src/lib.rs:582-600 | defaults, then files in order, then the environment; the first file that cannot be loaded is the error |
| BodyLimit.ChunksBody.PollFrame | arvik-core/src/body.rs:267-278 | hands out the chunks in order; `remaining` is the number of unread bytes before and after, so the subtraction never saturates |
| BodyLimit.FromChunks | arvik-core/src/body.rs:89-108 | drops the empty chunks and only those; the declared length is the total |
| BodyLimit.PollFrame | arvik-middleware/src/body_limit.rs:153-175 | one poll through any nesting of limits is `Polls` |
| BodyLimit.HintIsExact | arvik-middleware/src/body_limit.rs:181-183 | through any nesting of limits a declared length is exactly the data not yet read |
| BodyLimit.StackPolls | arvik-middleware/src/body_limit.rs:153-175 | data passes a stack of limits, counted by all, if and only if every limit has room; all else passes unchanged |
| BodyLimit.PollReads | arvik-middleware/src/body_limit.rs:153-175 | what one poll through the stack means for the outcome of the whole read |
| BodyLimit.ReadFrames | arvik-core/src/body.rs:147-162 | the loop ends as a read with one budget would |
| BodyLimit.ReadsByPosition | arvik-core/src/body.rs:147-162 | a read ends by the first item that ends it: with all data at the end of the body, too large at data over the budget or at a limit's error, with that error at any other, and broken at trailers |
| BodyLimit.ToBytesLimited | arvik-core/src/body.rs:130-173 | the outcome, trailers and stream errors included, is that of one budget, the tightest of the limits around the body and the reader's own; a longer declared length is refused before the first poll |
| BodyLimit.DataReads | arvik-core/src/body.rs:147-173 | with one budget, chunks come out whole if they fit and are refused otherwise |
| BodyLimit.ReadThrough | arvik-core/src/body_limit.rs:85-90 | chunks behind limits L1..Lk read with limit M: the concatenation if the total is at most the minimum, otherwise payload too large |
| BodyLimit.ReadStreamThrough | arvik-core/src/body_limit.rs:85-90 | the same for a stream whose length is not declared |

## Left out

- TokenBucket.Bucket.TryConsume: tokens, rates and instants are exact reals; the rounding of f64 is not modelled.
- TokenBucket.Bucket.constructor: the guard `secs.max(f64::MIN_POSITIVE)` is not modelled, because the layer refuses a zero window.
- RateLimitStore.BucketStore.TryConsume: the shard counter is read and bumped in the sweep's region, and making a bucket reads the clock once, its second reading being overwritten by the call that follows.
- Key extraction from addresses and headers, and the 429 response apart from its `retry-after` number: header-by-header logic.
- SseEvent.Event.JsonData: the JSON serializer is not modelled; its result is a parameter.
- SseBody.SseBody.PollFrame: wake-ups are not modelled; a poll is given the stream's answer and the time.
- Admission.AbortedDrainEnds: that the runtime eventually takes an enabled step is not modelled; every way of taking steps ends.
- The accept loop and the drain loop are steps of the transition system; sockets, TLS, Hyper, and the early return on a fatal accept error are not modelled.
- Callbacks on connect and disconnect, and the accept workers: they do not touch the counter.
- Router.Router.RouteCollected: conflicts that the `matchit` trie reports on insertion are not modelled; the trie is a map from paths to route indices.
- Flattening.FlatteningPreservesMiddleware: a route collected onto the pattern of a nested route shares that route's layers, as merging method routers does; the reference takes this as given.
- Router.Router.Nest: the route table holds method routers as values; how they share lists is the subject of `MethodRouter`.
- MethodFilter.UnionMatches: masks are sets of bit positions rather than 16-bit words.
- MethodRouter.MethodRouter.Bake: two threads that fill the cache at once fill it with the same value; `OnceLock` is a plain field.
- The text of the `Allow` header, extractors, rejections and response conversions.
- Accept.ParseQ: `str::parse::<f32>` is an arbitrary function, and of a weight only its order and NaN matter.
- StaticPath.RelativePath: the `percent-encoding` and UTF-8 libraries are modelled by `Decode` and `Utf8.Valid`; file system probes and symbolic links are not modelled.
- ByteRange.Serve: `If-Range` is a parameter, and headers without a bearing on the range are left out.
- ConfigTree.MergeValues: the tree that `&mut Value` refers to is a value passed in and returned; numbers are integers.
- ConfigEnv.Build: loading files, the typed configuration that the tree is deserialized into and its validation are foreign calls or field checks.
- BodyLimit.ToBytesLimited: byte counts are unbounded, so the overflow of a 64-bit total is not modelled.
- The `Content-Length` check of the body limit layer, and `Full` bodies, which are one-chunk bodies.
- CORS, CSRF, authentication, compression codecs, metrics, tracing, health endpoints and multipart parsing.
