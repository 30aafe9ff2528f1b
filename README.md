# worker-bee job queue, modelled in Dafny

`makeJobQueue(yieldFn)(options)` in worker-bee builds a job dispatcher that
sink pairs share: each `(processMessage, cancelMessage)` pair gets an ingress
function. The dispatcher keeps four things:

- a cancellation registry mapping a context id to a watermark timestamp;
- a priority container ordered by the caller's `compare`;
- an `isProcessing` drain flag shared by every sink pair;
- a self-rescheduling tick, `_exec`.

Ingress either records a cancellation (a message `isCancelMessage` accepts
and whose context id is defined) or adds the message to the container. It
then starts a tick unless a drain is already in flight.

Each tick does three things in order:

1. It compacts the container when its slack (the backing array's length
   minus its size) is strictly over the threshold.
2. It goes idle when the container is empty.
3. Otherwise it polls one item, hands it to `cancelMessage` or
   `processMessage`, and hands itself to the yield primitive.

An item is cancelled when its context's watermark is truthy and strictly
later than the item's own timestamp.

The model has five modules:

- `QueueOptions`: the options, their defaults and the threshold selection.
- `Container`: the container as a multiset of live items plus a slack
  counter. `poll` picks an item that no live item has priority over. That
  is what a binary heap guarantees when `compare` is a strict weak order,
  so the model requires one.
- `Cancellation`: the registry, `shouldBeCancelled` and the "last directive
  wins" history lemmas.
- `Queue`: the class `JobQueue` with the source's state as fields. Its
  methods are `Ingress`, `Tick`, `RunScheduled` and `Drain`, and they are
  specified through the predicate `IsTick` over a `State` snapshot.
- `Scenarios`: the queue's tests restated as methods with exact
  postconditions.

The yield primitive is modelled by the field `tickScheduled`. `RunScheduled`
is the host running the waiting callback, and `Drain` runs callbacks until
none is left. A synchronous host such as `fn => fn()` is therefore `Ingress`
followed by `Drain`. A deferred host such as `process.nextTick` is any
interleaving of `Ingress` and `RunScheduled` calls. The sinks are modelled
as appends to the class's `log`. Each entry records the sink pair, which of
its two callbacks was called, and the message.

## Model

| member | source | states |
|---|---|---|
| QueueOptions.Resolve | src/queue.ts:5-31 | The caller's `getContextId` is kept. The caller's `compare` and `isCancelMessage` are used when given. When absent, no message has priority over another and none is a cancellation. The threshold is `compactThreshold \|\| 1000` over the default `Number.MAX_VALUE`. |
| QueueOptions.EffectiveThreshold | src/queue.ts:8-31 | The threshold in effect is finite exactly when the caller supplied a number. It is never 0: a supplied 0 becomes 1000, and any other number is kept. |
| QueueOptions.NeedsCompaction | src/queue.ts:37 | Compaction is due only under a finite threshold, and then exactly when the slack is strictly over it. A negative threshold compacts on every tick. |
| QueueOptions.CompactionTrigger | src/queue.ts:31-37 | With an absent or unbounded threshold nothing is ever compacted. A supplied 0 falls back to 1000. Any other supplied n compacts exactly when the slack is strictly over n. |
| QueueOptions.ResolvedCompareIsWeakOrder | src/queue.ts:5-6 | The comparator in use is a strict weak order whenever the caller's is; the default relates nothing. |
| Container.MinimalExists | src/queue.ts:45 | A non-empty container ordered by a strict weak order always has an item that `poll` may return, one that no live item has priority over. |
| Container.SlackAfterAdd | src/queue.ts:58 | `add` shrinks the slack by exactly one when there is any, and leaves a slack of 0 at 0. |
| Container.SlackAfterTick | src/queue.ts:37-45 | Without compaction a tick adds one slot of slack when it polls and none otherwise. With compaction the slack ends at 1 if the tick polled and at 0 if not. |
| Container.SlackAfterDrain | src/queue.ts:36-54 | Over a whole drain episode of k items, an absent threshold lets the slack grow by exactly k. A finite threshold n >= 0 leaves at most n. |
| Container.SlackStaysBounded | src/queue.ts:37-38 | With a finite non-negative threshold n, the slack after any tick is at most n + 1. |
| Cancellation.ShouldBeCancelled | src/queue.ts:14-23 | True exactly when the item's context id is defined, has a registry entry, and that entry is nonzero and strictly greater than the item's timestamp. |
| Cancellation.CancellationReachesBackward | src/queue.ts:22 | An item cancelled at some timestamp is also cancelled at any earlier timestamp. An item at or after its watermark survives, and a watermark of 0 cancels nothing. |
| Cancellation.IsDirective | src/queue.ts:55 | A message is recorded as a cancellation exactly when it is one for some context id. That requires the classifier to accept it and its context id to be defined. |
| Cancellation.Record | src/queue.ts:55-56 | A directive sets its context's watermark to its own timestamp, even when that is lower than the old watermark. Every other entry is left as it was, and no key is added except the directive's context. |
| Cancellation.LastDirective | src/queue.ts:55-56 | When present, the result is the position of the last directive for the context in a history. It is absent exactly when no directive names the context. |
| Cancellation.RegistryAfter | src/queue.ts:55-56 | Ingress of a history of messages never removes a registry key. A key it adds is named by some directive of the history. |
| Cancellation.RegistryHoldsLastDirective | src/queue.ts:55-56 | After any history, a context's watermark is the timestamp of the last directive for it. A context no directive names keeps its starting entry, or stays absent. |
| Cancellation.CancelledByLastDirective | src/queue.ts:20-22 | From an empty registry, an item is cancelled exactly when the last directive for its context has a nonzero timestamp above the item's. An item with no context id is never cancelled. |
| Queue.Deliver | src/queue.ts:46-52 | A polled item goes to the cancel sink exactly when `shouldBeCancelled` holds, and to the process sink otherwise. Its sink pair and message are kept. |
| Queue.Accept | src/queue.ts:55-59 | A directive only updates the registry; the container is unchanged. Any other message is added to the container and leaves the registry alone. This includes a cancellation whose context id is undefined. |
| Queue.TickConservesItems | src/queue.ts:36-54 | A tick delivers at most one item, and exactly one when something was pending. What was pending equals what is still pending plus what the tick delivered. Earlier deliveries and the registry are untouched, and the drain flag ends up set exactly when a further tick was scheduled. |
| Queue.OneItemTick | src/queue.ts:40-53 | A tick with one item pending delivers that item and leaves the container empty. |
| Queue.OneItemDelivered | src/queue.ts:36-54 | A drain that started with one item pending delivered exactly that item. |
| Queue.PriorityPairDelivered | src/queue.ts:45 | A drain that started with items a and b pending, where a has priority over b, delivered a and then b. |
| Queue.JobQueue.constructor | src/queue.ts:26-34 | The options are resolved. The container and registry start empty and the queue starts idle. |
| Queue.JobQueue.CompactIfNeeded | src/queue.ts:37-39 | The slack becomes 0 exactly when it is strictly over the threshold, and the live contents are unchanged. |
| Queue.JobQueue.Poll | src/queue.ts:45 | Under a strict weak order, the returned item was live and no live item had priority over it. It is removed from the container, and the slack grows by one. |
| Queue.JobQueue.Add | src/queue.ts:58 | The message joins the container, and the slack shrinks by one if a free slot was reused. |
| Queue.JobQueue.Dispatch | src/queue.ts:46-52 | Exactly one sink call is appended, to the sink the registry selects. |
| Queue.JobQueue.Tick | src/queue.ts:36-54 | `IsTick`: compact if over the threshold. On an empty container, clear the drain flag and schedule nothing. On a non-empty one, set the flag, remove one minimal item, deliver it, and schedule exactly one further tick. |
| Queue.JobQueue.Ingress | src/queue.ts:55-63 | The message is accepted as `Accept` says. While a drain is in flight nothing else happens. Otherwise one tick runs at once. |
| Queue.JobQueue.RunScheduled | src/queue.ts:53 | The waiting callback runs one tick of the sink pair that scheduled it. |
| Queue.JobQueue.Drain | src/queue.ts:36-54 | Every item pending at the start is delivered exactly once, as a multiset. No item delivered later has priority over one delivered earlier, and each goes to the sink the registry selects. At the end the queue is idle and empty. Exactly one tick more than the number of items runs, and the slack follows `SlackAfterDrain`. |
| Scenarios.Work | test/queue.spec.ts:11-12 | The test's message with a given id (or context id) and timestamp and no type: its id is defined and it is not a cancellation. |
| Scenarios.CancelOf | test/queue.spec.ts:11-12 | The test's message with type 'cancel': its id is defined and it is a cancellation. |
| Scenarios.KeyOf | test/queue.spec.ts:43 | The tests' `getContextId`, `message.id` or `message.contextId`: undefined exactly when the message carries none. |
| Scenarios.IsCancel | test/queue.spec.ts:44 | The tests' `isCancelMessage`: true exactly when the type is 'cancel'. |
| Scenarios.Numbered | test/queue.spec.ts:111-113 | The priority test's `{ id, timestamp: 0 }`. |
| Scenarios.JobId | test/queue.spec.ts:92 | `message.id` on the priority test's messages is always defined. |
| Scenarios.LexLess | test/queue.spec.ts:90 | JavaScript's `<` on strings of Basic Multilingual Plane characters. No string is less than itself, and a proper prefix comes first. |
| Scenarios.LexLessTransitive | test/queue.spec.ts:90 | That string `<` is transitive. |
| Scenarios.LexLessTotal | test/queue.spec.ts:90 | Of two different strings, one is less than the other under that `<`. |
| Scenarios.LowerIdFirst | test/queue.spec.ts:90 | `(a, b) => a.id < b.id`: a message never has priority over one with the same id. |
| Scenarios.LowerIdFirstIsWeakOrder | test/queue.spec.ts:90 | `(a, b) => a.id < b.id` is a strict weak order on messages whose id is defined, so the queue may be built with it. |
| Scenarios.IngressIdle | src/queue.ts:55-63 | Ingress of a non-directive into an idle queue delivers it at once and leaves a drain in flight. |
| Scenarios.IngressBusy | src/queue.ts:60-62 | Ingress while a drain is in flight only records or enqueues. |
| Scenarios.DrainAll | src/queue.ts:53 | Running all waiting ticks delivers what `Delivered` describes. |
| Scenarios.ProcessesMessage | test/queue.spec.ts:27-39 | With a synchronous host, one message is processed once and nothing is cancelled. |
| Scenarios.CancelsMessage | test/queue.spec.ts:41-60 | Message 1 is processed. Message 2 is cancelled by the later cancellation for id 2. |
| Scenarios.IngressContextTwo | test/queue.spec.ts:74-78 | After the test's five ingress calls, the context-1 item has been processed. Context 2's items at 0, 5 and 10 are pending, and the watermark of context 2 is 9. |
| Scenarios.ContextTwoDeliveries | test/queue.spec.ts:80-86 | Those three items are delivered, the ones before 9 to the cancel sink and the one at 10 to the process sink. |
| Scenarios.CancelsEarlierInContext | test/queue.spec.ts:62-87 | The whole test gives four deliveries. Context 1 is processed first, then the three context-2 items in any order, cancelled exactly when their timestamp is below 9. |
| Scenarios.ProcessesInPriorityOrder | test/queue.spec.ts:89-118 | Ids 3, 2, 1 are processed in the order 3, 1, 2. |
| Scenarios.UndefinedContextCancelIsProcessed | src/queue.ts:55-58 | A cancellation with an undefined context id is not recorded. It is queued and processed. |
| Scenarios.SinkPairsShareOneDrain | src/queue.ts:34-35 | A message that comes in through a second sink pair during the first pair's drain is delivered through the first pair's sinks. |
| Scenarios.LastCancellationWins | src/queue.ts:56 | Directives at 9 and then at 3 leave watermark 3, so an item at 5 survives, although 9 alone cancels it. |

## Left out

- The internals of `FastPriorityQueue` (`src/queue.ts:1`, `:12`) are a foreign library, reached through its private `array` field. The container is a multiset with a slack counter, under these assumptions:
  - `add` reuses a free slot when there is one;
  - `poll` leaves one;
  - `trim` frees them all.
  Its tie-breaking among equally ranked items is left open: `poll` may return any minimal item.
- Real asynchrony of `setImmediate`/`process.nextTick` is replaced by the `tickScheduled` flag and the host-driven `RunScheduled`/`Drain`.
- Sinks are appends to `log`. Exceptions thrown by a sink are not modelled. In the source such an exception escapes `_exec` with `isProcessing` left true and no tick scheduled. Re-entrant ingress from inside a sink is not modelled either.
- `Number.MAX_VALUE` and other non-integer thresholds are not modelled; "no compaction" is the `Unlimited` limit. Timestamps are integers, so NaN and fractional timestamps are out of scope.
- Options given explicitly as `undefined` are treated as absent. In the source they override the defaults:
  - an undefined `compactThreshold` falls back to 1000;
  - an undefined `compare` leaves the library's own default comparator;
  - an undefined `isCancelMessage` makes every ingress throw a TypeError at `src/queue.ts:55`.
- The default comparator `a < b` is modelled by what it evaluates to on plain objects, which is always false. Other comparators must be strict weak orders. A comparator that is irreflexive and transitive but whose incomparability is not transitive is not modelled. An example is `a.id < b.id` over messages some of whose ids are undefined. With such a comparator the binary heap can poll an item while a live item has priority over it, so the order `Poll`, `Tick` and `Drain` promise does not hold there.
- Context ids are `string` or undefined (`None`). A `null` id is not modelled. The source's `Map` would record a null-context cancellation under the key `null` itself, and it would cancel earlier null-context items.
- Scenarios.LexLess: orders strings by Unicode code point, while JavaScript compares UTF-16 code units. The two agree on strings of Basic Multilingual Plane characters, such as the tests' ASCII ids. They differ when a character above U+FFFF meets one from U+E000 to U+FFFF.
- The `if (message)` guard at `src/queue.ts:46` is not modelled as a separate branch. A polled item is always a message object, so the guard never fails.
- `src/queueOptions.ts` is type declarations only; it gives the shape of `UserOptions` and `Config`.
- A cancellation whose context id is undefined is not dropped (`src/queue.ts:55-58`). It fails the guard at line 55, so it is enqueued as ordinary work and delivered to `processMessage`.
