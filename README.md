# Server-Sent Events hub, modelled in Dafny

This project models the in-memory publish/subscribe hub of the `sse` Go
package (`sse.go`). The hub keeps one process-wide registry of subscriber
channels. `PublishTopic` builds one event `{Topic, Event, Data}` and hands it
to every non-nil registered channel, in registry order, with no topic
filtering. Each stream handler (`HandleSSE`) creates its own channel,
registers it, and keeps only the events whose topic equals its `topic` query
parameter. It writes each kept event as the two-line record
`event: <Event>\n` / `data: <Data>\n\n`. This is the `event`/`data` field
layout of `text/event-stream` (section 9.2, "Server-sent events", of the HTML
Living Standard). When its connection ends, the handler's deferred cleanup
splices the channel out of the registry and closes it.

Layout, one module per file:

- `stream.dfy` (`Stream`): the event record, the topic filter, the record
  encoding (`Record`, `Encode`, `Kept`), a reader for the same layout
  (`Decode`) used as the encoder's inverse, and the handler's delivery loop
  (`Serve`).
- `registry.dfy` (`Registry`): channel handles (`Nil` or `Chan(id)`), the
  splice performed on unregister (`RemoveFirst`) and its properties.
- `broadcast.dfy` (`Broadcast`): one publish over a registry (`FanOut`), the
  order of its handoffs (`Targets`) and its properties.
- `hub.dfy` (`Hub`): a value view of the whole hub (`Snapshot`), its
  invariant `Inv`, the steps connect / publish / cleanup, the system-level
  lemmas, and the class `EventServer`. The class holds the registry and the
  channels as mutable fields. Its methods implement the steps with the
  source's loops.
- `wrappers.dfy` (`Wrappers`): `Option`.

How the pieces fit:

- A channel is modelled as the log of the events handed to it (`inbox`). The
  handoff in the source is unbuffered and synchronous, so an event handed to a
  channel is exactly an event its handler receives.
- What a handler with filter `f` writes is therefore `Encode(f, inbox[h])`.
  `Serve` computes that text with the source's loop.
- `Inv` states that every channel holds exactly the events published while it
  was registered, in publish order. This covers isolation and per-subscriber
  ordering. `Inv` also states that a channel is registered at most once, and
  exactly from its connection until its cleanup. Every step preserves `Inv`.

## Model

| member | source | states |
|---|---|---|
| `Stream.Kept` | sse.go:80 | the kept events are exactly the received events whose topic equals the filter |
| `Stream.EncodeAppend` | sse.go:77-84 | the output for events received in two stretches is the output for the first stretch followed by that for the second: records are written in arrival order |
| `Stream.EncodeSnoc` | sse.go:79-84 | receiving one more event appends its record when its topic equals the filter and appends nothing otherwise |
| `Stream.EncodeOnlyKept` | sse.go:80 | events of other topics are discarded silently: the output equals the output over the kept events alone |
| `Stream.EncodeNoMatch` | sse.go:80 | when no received topic equals the filter nothing is written; an empty filter therefore writes only for events whose topic is empty |
| `Stream.DecodeEncode` | sse.go:81-82 | reading the output back in the `event:`/`data:` layout gives the (Event, Data) pair of every kept event, in the order received, when every label and payload is a single line |
| `Stream.Serve` | sse.go:71-88 | the delivery loop writes exactly `Encode(filter, incoming)`; when the response cannot be flushed it writes nothing |
| `Registry.RemoveFirstAbsent` | sse.go:61-66 | unregistering a handle that is not listed leaves the registry unchanged |
| `Registry.RemoveFirstAt` | sse.go:61-65 | when the first entry identical to the handle is at index i, the result is the registry with exactly entry i spliced out, the others in their order |
| `Registry.RemoveFirstCount` | sse.go:61-65 | one entry identical to the handle is removed if there is one: the multiset loses one copy of it and the length drops by one exactly when the handle was listed |
| `Registry.RemoveFirstNoDup` | sse.go:59-69 | on a registry without duplicates, unregistering keeps it duplicate-free, removes the handle entirely and keeps every other handle |
| `Registry.UnregisterTwice` | sse.go:61-66 | on a registry without duplicates, a second unregister of the same handle is a no-op |
| `Registry.RegisterUnregister` | sse.go:53-69 | appending a handle not yet listed and then unregistering it gives back the registry as it was |
| `Registry.RegisterNoDup` | sse.go:55-57 | appending a handle not yet listed keeps the registry duplicate-free |
| `Broadcast.FanOutQueue` | sse.go:34-42 | after one publish a non-nil channel's log is its old log plus one copy of the event per registry entry naming it; the nil channel's log and the logs of unregistered channels are unchanged |
| `Broadcast.FanOutKeys` | sse.go:34-42 | a publish gives a log only to channels that had one or are registered and non-nil |
| `Broadcast.FanOutOnce` | sse.go:34-42 | on a registry without duplicates, each registered non-nil channel receives the event exactly once and every other channel receives nothing |
| `Broadcast.CountNoDup` | sse.go:34-36 | in a registry without duplicates a handle has one entry if listed and none otherwise |
| `Broadcast.FanOutNoTargets` | sse.go:34-35 | a publish over a registry with no non-nil entry, the empty registry included, changes no channel |
| `Broadcast.TargetsMembers` | sse.go:34-35 | the channels handed the event are exactly the non-nil registered ones |
| `Broadcast.TargetsNoNil` | sse.go:34-36 | when no entry is nil, the event is handed to the registered channels in registry order |
| `Hub.InitialInv` | sse.go:27-30 | the initial hub, with an empty registry, satisfies the hub invariant |
| `Hub.OpenKeepsInv` | sse.go:53-57 | connecting keeps the invariant and registers a channel never seen before whose log is empty: no event published earlier reaches it |
| `Hub.PublishReaches` | sse.go:32-44 | under the invariant, a publish appends the event to a channel's log exactly when that channel is connected and not yet cleaned up |
| `Hub.PublishKeepsInv` | sse.go:32-44 | publishing keeps the invariant: each channel still holds exactly the events published while it was registered, in publish order |
| `Hub.CloseKeepsInv` | sse.go:59-69 | cleanup keeps the invariant and leaves the channel out of the registry for good, so no later event reaches it |
| `Hub.PublishDelivers` | sse.go:32-44 | one publish extends a handler's output by the event's record exactly when the handler is still registered and the topic equals its filter; a cleaned-up handler's output never grows |
| `Hub.StreamOfConnection` | sse.go:53-88 | a handler's output is the records of the events published while its channel was registered and whose topic equals its filter, in publish order |
| `Hub.NeverSendsOnClosed` | sse.go:35-36 | under the invariant a publish hands events only to channels that were created by a connection and are not closed |
| `Hub.NoLeak` | sse.go:59-69 | once every connection has been cleaned up, the registry is empty |
| `Hub.OpenCloseRestores` | sse.go:53-75 | a connection that registers and runs its cleanup at once, as on the no-flusher path, leaves the registry as it was |
| `Hub.Scenario` | sse.go:32-88 | A on "orders" and B on "payments": one "orders" publish writes `event: created\ndata: {id:1}\n\n` to A and nothing to B; after A disconnects a second publish adds nothing to either |
| `Hub.EventServer.constructor` | sse.go:27-30 | a new server starts with an empty registry and satisfies the invariant |
| `Hub.EventServer.Register` | sse.go:55-57 | the registry becomes the old registry with the handle appended; nothing else changes |
| `Hub.EventServer.Unregister` | sse.go:60-67 | the scan-and-splice loop leaves the registry equal to `RemoveFirst` of the old registry; nothing else changes |
| `Hub.EventServer.HandOff` | sse.go:34-42 | the fan-out loop leaves the channel logs equal to `FanOut` of the old logs over the registry, and makes its handoffs to `Targets(clients)` in that order |
| `Hub.EventServer.PublishTopic` | sse.go:32-44 | the new state is the publish step of the old one, the registry untouched, and the invariant holds afterwards |
| `Hub.EventServer.Connect` | sse.go:53-57 | a fresh channel is created and registered (the connect step), and the invariant holds afterwards |
| `Hub.EventServer.Disconnect` | sse.go:59-69 | the channel is unregistered and then closed (the cleanup step), and the invariant holds afterwards |

## Left out

- Goroutines, the `sync.Mutex` and the blocking channel handoff. Every registry operation and every publish is one atomic step, taken one after another. The model therefore does not capture a publish that waits for a slow handler. It also does not capture a handler that leaves its loop while a publish is waiting to hand it an event.
- `r.Context().Done()`. Cancellation is the caller choosing to invoke `Disconnect`. `Serve` receives, as a parameter, the events that reach the channel before cancellation.
- `close(sseClient)`. It is modelled only as adding the channel to `closed`. The invariant shows that the registry never lists a closed channel.
- HTTP plumbing: query parsing (the filter is a parameter), the response headers, `Flush()`, and the `http.Flusher` assertion with its 500 response. These are calls into `net/http`. A failed assertion is the boolean `flushable` of `Serve`. The deferred cleanup that also runs on that path is `OpenCloseRestores`.
- `fmt.Fprintf`. Writes are string concatenation onto the handler's output.
- The `ServerSideEventsServer` interface and `NewServerSideEventsServer`. They have no logic. The process-wide state they share is an `EventServer` object.
- Go strings are byte strings. The model uses `seq<char>`. Only exact equality and concatenation are used, so nothing depends on the encoding.
- `Stream.Decode`: the source has no reader. This one reads back only the exact layout the handler writes (`event: `, `data: `, line feed, blank line). It is not the full parsing algorithm of the HTML Living Standard: no carriage returns, comments, other fields or multi-line data.
- `Stream.DecodeEncode`: requires every label and payload to be a single line. The source writes `Data` verbatim, so a line feed inside it would change the record framing.
- `Hub.EventServer.Disconnect` and `Hub.CloseStep`: they require the channel to have been created by `Connect` and not yet closed. A handler's deferred cleanup runs once, for its own channel, and Go panics on closing a channel twice. The unrestricted splice is `Unregister`.
- `Hub.EventServer.PublishTopic`, `Connect` and `Disconnect` require the object invariant `Valid()`. The constructor establishes it and every operation preserves it. `Register` and `Unregister` are the raw registry edits and require nothing.
