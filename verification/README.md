# Verified models of the mayastor dependencies

A Dafny 4.11 project that models six parts of the repository and proves what they promise.
`dafny verify dfyconfig.toml` checks all of it.

| part | files | crate |
|---|---|---|
| event pipeline | `Retry`, `Events`, `MbusNats`, `RequestTrace`, `BusSubscription`, `EventPublisher`, `Pipeline`, `PipelineTheorems`, `AtMostOnce`, `HandedTwice`, `PipelineRuns` | `apis/events`, `event-publisher` |
| protobuf time | `Duration`, `Timestamp` | `prost-extend` |
| container composer | `Composer`, `ContainerCommand` | `composer` |
| mount table | `Utf8`, `MountInfo`, `ConsistentRead` | `devinfo` |
| NVMe-oF | `NvmeAddress`, `NvmeDiscovery` | `nvmeadm` |
| git version | `GitVersion` | `version-info` |

`Wrappers`, `Decimal` and `Text` hold options, machine integers, decimal text and string splitting.

## How to read it

Code that changes things step by step is a method, of a class where the source has an object.
Its contract equates the new state with a function of the old one, and the lemmas are about
that function. The machine integers `i32`, `u32`, `i64` and `u64` are subset types: storing a
value out of range is a verification error, so a body that verifies does not overflow.

**The event pipeline.** A server is an arbitrary function from the position of a request in
the client's log to an answer, so a lemma about every `Answers` is a lemma about any server.
`MbusNats` proves the nested retry loops of the client equal to recursive functions, and those
equal to a machine that takes one request at a time (`AfterReply`, `AfterCreate`). `Pipeline`
uses that same machine for the publisher inside a state machine of producer, bounded channel,
publisher, network, server and consumer. A run is any interleaving of its steps: requests are
delayed, refused or lost, replies are lost, the client times out, the stream disappears and is
made again, old messages are evicted, messages are delivered again. `EveryRunKeepsInv` proves
an invariant of every run and `PipelineTheorems` draws the consequences. One assumption about
the server is built in: the stream keeps only the last message of a subject (it is configured
that way). Requests may be served in any order; only what is said about order takes a run whose
requests are served in the order they were sent (`InOrder`), and
`PipelineRuns.OvertakenRequestBreaksOrder` is a run that loses the order without it.
In `Request`, `id` and `origin` are history: no step of the server reads them to decide anything.

**Where the code and what is said of it differ**, the model follows the code, and a lemma says
exactly when the two agree:

- `Duration` text (prost-extend/src/duration.rs:14) takes its sign from the fields before
  normalisation and only if both are negative, so -1 s prints as "1s": `DisplayReadsBack`,
  `MinusOneSecondPrintsPositive`.
- `source_mounted_at` (devinfo/src/mountinfo/mod.rs:180) stops at the first entry of a source,
  so it denies a second mount point: `FirstMountIsExact`, `SecondMountIsDenied`.
- A backoff "up to a max duration" (apis/events/src/common/retry.rs:73) exceeds the maximum
  when the initial delay does: `DelaysGrowUpToMax`, `DelayAboveMax`.
- "At most once" (apis/events/src/mbus_nats.rs:272) holds of the stream at any moment
  (`StreamIsOrderedSelection`), but over a run an event can be stored a second time, in the same
  stream or in a new one after a loss, and handed out as two messages. In every run, whatever
  happened to other events, one of two copies of an event was given up, with retries left, while
  it was stored or under way (`SecondCopyWasGivenUp`), and one of two messages of an event while it
  was handed out, in the stream or under way (`SecondMessageWasGivenUp`). Every such step can lead
  there, so for an event not given up like that so far these are exactly the steps that do:
  `SecondCopyExactlyAfterPrematureRetry`, `HandedTwiceExactlyAfterVisibleRetry`.
  `LostAckDeliversTwice` and `RestartDeliversTwice` are runs of an ack that is lost and of a server
  that forgets its stream.
- The casts of the log page length (nvmeadm/src/nvmf_discovery.rs:317) are exact up to 16 GiB,
  the buffer length up to 4 GiB: `LogPageLengthIsExact`, `FourGibibytesCutBuffer`.

A panic on integer overflow is modelled as it happens with overflow checks on.

## Model

| member | source | states |
|---|---|---|
| Retry.DelaysGrowUpToMax | apis/events/src/common/retry.rs:73-85 | delays never shrink and stay within the maximum for all retries if and only if the initial delay is unused or not above the maximum |
| Retry.DelayAboveMax | apis/events/src/common/retry.rs:73-85 | an initial delay of 20 s is used under a maximum of 10 s |
| Retry.DefaultSchedule | apis/events/src/common/retry.rs:19-29 | the ten default sleeps add up to 71 seconds and no publish delay exceeds 10 |
| Retry.SteppedIsProduct | apis/events/src/common/retry.rs:79-82 | raising a delay step by step is the product the code computes |
| Retry.DelayRises | apis/events/src/common/retry.rs:73-85 | the delay stays up to the cutoff, starts again capped behind it, and rises by the step, capped, with each further retry |
| Retry.ShippedDelays | apis/events/src/common/retry.rs:19-71 | the sleeps of both shipped schedules, retry by retry: 5 up to the fifth, then 7, 9 and 10 |
| Events.SubjectInjective | apis/events/src/mbus_nats.rs:249-262 | two messages share a subject exactly when category and id are equal, for every i32 category and every id, dots included |
| Events.SubjectReadsBack | apis/events/src/mbus_nats.rs:249-262 | every subject falls under the filter "events." of the stream, and category and id are read back from what follows |
| MbusNats.NatsMessageBus.BackoffWithOptions | apis/events/src/common/retry.rs:73-85 | counts one try and logs exactly the sleep of the schedule |
| MbusNats.NatsMessageBus.GetWithRetries | apis/events/src/mbus_nats.rs:164-246 | against any server: result and log of the get and get-or-create loops |
| MbusNats.NatsMessageBus.CreateConsumerAndGetMessages | apis/events/src/mbus_nats.rs:110-160 | against any server: result and log of the consumer loop, messages requested only after the consumer |
| MbusNats.NatsMessageBus.Subscribe | apis/events/src/mbus_nats.rs:329-342 | a consumer is made only after the stream was found |
| MbusNats.NatsMessageBus.RecoverFrom | apis/events/src/mbus_nats.rs:310-323 | nothing after a timeout, a whole creation loop after a missing stream, a sleep after any other error |
| MbusNats.NatsMessageBus.Publish | apis/events/src/mbus_nats.rs:275-325 | result and log against any server; nothing sent for a message without an id or payload |
| MbusNats.PathIsPublishRun | apis/events/src/mbus_nats.rs:275-325 | taken one request at a time, by the steps of the pipeline's publisher, the nested loops give the same result and log |
| MbusNats.PathThroughCreation | apis/events/src/mbus_nats.rs:197-246 | the same through an inner creation loop, from any of its attempts |
| MbusNats.CreationEffort | apis/events/src/mbus_nats.rs:197-246 | one creation loop costs at most max_retries + 1 requests and one pass of its schedule |
| MbusNats.PublishEffort | apis/events/src/mbus_nats.rs:275-325 | for any options and any server, publish requests, creations and sleep stay within a cap that falls by one round with each retry |
| MbusNats.PublishMessageEffort | apis/events/src/mbus_nats.rs:275-325 | with the shipped options at most 11 publish requests, 110 creations and 710 seconds of sleep |
| MbusNats.WorstPublish | apis/events/src/mbus_nats.rs:275-325 | for any options, a server that never acknowledges and in each round takes the dearer of a sleep and a whole creation loop costs exactly the cap |
| MbusNats.CapIsReached | apis/events/src/mbus_nats.rs:275-325 | for any options and any measure some server costs exactly the cap |
| MbusNats.CapsReachedTogether | apis/events/src/mbus_nats.rs:275-325 | one server reaches all caps where no sleep is longer than a whole creation schedule |
| MbusNats.BoundsAreReached | apis/events/src/mbus_nats.rs:275-325 | with the shipped options one server reaches 11, 110 and 710 together |
| MbusNats.OneRequestThroughout | apis/events/src/mbus_nats.rs:280-284 | every publish request of a call is the same subject and payload |
| RequestTraces.RequestTrace | apis/events/src/mbus_nats.rs:164-246 | against any server, entry by entry: requests and scheduled sleeps take turns, all requests but the last are refused, and the last is refused only when no attempt is left |
| RequestTraces.ConsumerTrace | apis/events/src/mbus_nats.rs:128-158 | against any server, entry by entry: messages are asked for right after the consumer was got and only then, anything refused is followed by the next sleep of the schedule or the end |
| RequestTraces.SubscribeTrace | apis/events/src/mbus_nats.rs:329-342 | the log is one loop of lookups, of 11 if all are refused, and behind an answered one a loop of attempts at a consumer and its messages |
| RequestTraces.SubscribeAsks | apis/events/src/mbus_nats.rs:329-342 | read off log and answers alone: it begins with a lookup, no consumer or messages are asked for before an answered one, and it succeeds if and only if the log ends in a consumer and then messages, both answered |
| RequestTraces.PublishTrace | apis/events/src/mbus_nats.rs:283-324 | against any server, entry by entry: after a timeout the request again at once, after a missing stream a creation loop, after any other error the sleep of the schedule, and the end exactly at an ack, the last request or the last creation; the outcome is that of the last entry |
| RequestTraces.MessageTrace | apis/events/src/mbus_nats.rs:275-325 | the same of `publish` of a message: with subject and payload the log begins with the request of both, without them it is empty and the error says which is missing |
| RequestTraces.RequestsCarryMessage | apis/events/src/mbus_nats.rs:280-284 | every publish request carries the subject and the encoding of the message |
| RequestTraces.TimeoutsAreRetriedAtOnce | apis/events/src/mbus_nats.rs:310-314 | a request that timed out, if anything follows it, is followed by itself with no sleep between |
| MbusNats.LookupEffort | apis/events/src/mbus_nats.rs:164-194 | one lookup loop costs at most max_retries + 1 lookups, one pass of its schedule, and nothing else |
| MbusNats.ConsumerEffort | apis/events/src/mbus_nats.rs:110-160 | one consumer loop costs at most 2 (max_retries + 1) requests, one pass of its schedule, and nothing else |
| MbusNats.SubscribeEffort | apis/events/src/mbus_nats.rs:329-342 | subscribing ends within 11 lookups, 22 consumer requests and 142 seconds of sleep |
| MbusNats.EffortOfEach | apis/events/src/mbus_nats.rs:275-325 | what the measures of the bounds above count, entry by entry |
| Subscriptions.BusSubscription.Next | apis/events/src/mbus_nats.rs:355-385 | takes the next parseable payload off the list of all of them and nothing after the message that holds it, None only at the end, and performs exactly the interactions of the items it takes |
| Subscriptions.AckedOnceInOrder | apis/events/src/mbus_nats.rs:370-373 | one ack attempt for each message, in order, right after the message was taken |
| Subscriptions.TakenOnceInOrder | apis/events/src/mbus_nats.rs:355-385 | every item is taken once, in order |
| Subscriptions.ValuesInOrder | apis/events/src/mbus_nats.rs:355-385 | the values of two lots of deliveries are those of the one and then those of the other |
| Subscriptions.ValueOfOne | apis/events/src/mbus_nats.rs:375-382 | a message has a value exactly if it parses, a failure has none |
| EventPublisher.EventLayer.OnEvent | event-publisher/src/event_layer.rs:26-44 | appends the last parsed message, or drops it when the buffer is full or the receiver gone |
| EventPublisher.Channel.Recv | event-publisher/src/publisher.rs:24 | one message off the list of all the channel will hand out, waited for if need be; None only once the senders are gone and the buffer is empty |
| EventPublisher.ReceivedInOrder | event-publisher/src/publisher.rs:24 | what is handed out is what was buffered and then what found room, in the order it was offered |
| EventPublisher.LastParsedWins | event-publisher/src/event_layer.rs:48-66 | of the fields that parse the last one wins, with none it is the default message |
| EventPublisher.FirstOnesAreLetIn | event-publisher/src/event_layer.rs:26-44 | of messages offered together the first are let in, as many as there is room for |
| EventPublisher.RoomMeansAllReceived | event-publisher/src/publisher.rs:24 | with room for all, everything sent is handed out, in the order sent |
| EventPublisher.PublishEvents | event-publisher/src/publisher.rs:20-32 | while other tasks keep sending: publishes everything the channel hands out, in order, each message wholly before the next |
| EventPublisher.UnparsedEventIsNeverSent | event-publisher/src/event_layer.rs:48-66 | an event whose fields never parse becomes the default message, which issues no request at all |
| EventPublisher.DrainEffort | event-publisher/src/publisher.rs:24-30 | the whole drain costs at most 11 requests, 110 creations and 710 seconds a message |
| EventPublisher.DrainsInOrder | event-publisher/src/publisher.rs:24-30 | draining two lots is draining the one and then the other, and one message is one call of `publish` |
| Pipeline.ChannelKept | event-publisher/src/publisher.rs:20-32 | every step keeps: accepted = handled, in flight, buffered, in that order |
| Pipeline.SentKept | apis/events/src/mbus_nats.rs:280-284 | every step keeps: each request carries the subject and payload of its event, and events are requested in order |
| Pipeline.WireKept | apis/events/src/mbus_nats.rs:283-293 | every step keeps: what is stored or under way was sent, nothing twice; and it stands in sending order if the step overtakes nothing |
| Pipeline.StreamKept | apis/events/src/mbus_nats.rs:206-216 | every step keeps: entries in sequence order, one a subject |
| Pipeline.WithoutMembers | apis/events/src/mbus_nats.rs:209 | storing a message removes exactly the entries of its subject |
| Pipeline.AckKept | apis/events/src/mbus_nats.rs:285-289 | every step keeps: an acknowledged request was stored under that sequence number |
| Pipeline.ConsumerKept | apis/events/src/mbus_nats.rs:116-123 | every step keeps: deliveries were sent, and those of an attached consumer are stored behind its cursor |
| Pipeline.OrderKept | apis/events/src/mbus_nats.rs:116-123 | every step that overtakes nothing keeps: stored, under way and delivered requests stand in sending order |
| Pipeline.EffortKept | apis/events/src/mbus_nats.rs:302-308 | every step keeps the count of requests within eleven for each event |
| Pipeline.EveryRunKeepsInv | apis/events/src/mbus_nats.rs:275-325 | the whole invariant holds after every interleaving, in whatever order requests are served |
| Pipeline.EveryOrderedRunKeepsOrder | apis/events/src/mbus_nats.rs:275-325 | with requests served in order, the sending order holds after every interleaving |
| PipelineTheorems.ChannelConserves | event-publisher/src/publisher.rs:20-32 | nothing accepted is lost or reordered, the buffer never exceeds 500, and a stopped publisher has handled everything |
| PipelineTheorems.TakingIsPublishing | apis/events/src/mbus_nats.rs:275-284 | the publisher of the state machine takes a message exactly as `publish` begins: over at once with the same outcome, or at the first request, from where the call is the path of that phase |
| PipelineTheorems.AnsweringIsPublishing | apis/events/src/mbus_nats.rs:283-324 | in every reachable state an answer moves the publisher one step along the path of `publish`: the call ends with the outcome handled, or goes on from the next phase, after a sleep at most, for the same message |
| PipelineTheorems.DroppedExactlyWhenFull | event-publisher/src/event_layer.rs:26-44 | over every run the dropped events are exactly those traced while 500 accepted ones were waiting, and the accepted are all others, in order |
| PipelineTheorems.StreamIsOrderedSelection | apis/events/src/mbus_nats.rs:206-325 | in every reachable state the stream encodes accepted events, none twice, whatever the order of service; served in order, it has them in the order of acceptance |
| PipelineTheorems.SuccessMeansStored | apis/events/src/mbus_nats.rs:286-289 | an event whose publication returned a sequence number was in the stream under that number at some step |
| PipelineTheorems.RequestsBounded | apis/events/src/mbus_nats.rs:302-308 | over a whole run at most eleven requests for each event begun |
| PipelineTheorems.BusyPublisherAdvances | apis/events/src/mbus_nats.rs:283-324 | a busy publisher always has a step, each of its steps lowers a measure, and no other step moves it |
| PipelineTheorems.PublishingEnds | apis/events/src/mbus_nats.rs:283-324 | over a whole run at most 132 publisher steps for each event begun |
| PipelineTheorems.NoIdNoRequest | apis/events/src/mbus_nats.rs:249-257 | no request of any run comes from an event without metadata |
| PipelineTheorems.StepKeepsEvents | apis/events/src/mbus_nats.rs:206-216 | with distinct ids only loss of the stream or eviction removes an event from it |
| PipelineTheorems.EventsStayInStream | apis/events/src/mbus_nats.rs:206-216 | over any stretch of a run without those, what the stream held it still holds |
| PipelineTheorems.SubscriberSeesEventsInOrder | apis/events/src/mbus_nats.rs:327-385 | end to end: successive `next` calls return the accepted events behind the deliveries, whatever failures come between, and in the order of acceptance if requests are served in order |
| PipelineTheorems.DeliverySkipsNothing | apis/events/src/mbus_nats.rs:116-123 | over every run, what may be delivered next is the entry at the cursor again or the first one behind it, none skipped, and as long as one is behind the cursor one of those may be delivered |
| AtMostOnce.EveryRunKeepsEver | apis/events/src/mbus_nats.rs:206-216 | over every run, losses of the stream included: no request is stored twice, and only what was stored is handed out |
| AtMostOnce.EveryRunSetsAside | apis/events/src/mbus_nats.rs:283-324 | over every run, leaving aside the requests given up prematurely: one request an event was stored or is under way, of the event in flight only the awaited one, and none that got an error |
| AtMostOnce.SecondCopyWasGivenUp | apis/events/src/mbus_nats.rs:272-314 | over every run, whatever happened to other events: of two requests of one event stored, in one stream or several, or under way, one was given up at some step with retries left while it was stored or under way |
| AtMostOnce.PatientEventIsStoredOnce | apis/events/src/mbus_nats.rs:272-314 | an event of which no request is given up like that is stored once and handed out as one message, over all streams and subscriptions |
| AtMostOnce.PatientRunsStoreOnce | apis/events/src/mbus_nats.rs:272-274 | in a run where none is, that holds of all events together |
| AtMostOnce.PrematureRetryStoresTwice | apis/events/src/mbus_nats.rs:310-314 | from every reachable state, giving up such a request with retries left can lead to a second copy stored, at the end of the stream |
| AtMostOnce.SecondCopyExactlyAfterPrematureRetry | apis/events/src/mbus_nats.rs:272-314 | for every run and every event not given up prematurely so far: a step can be followed, without such a step for the event, until the event was stored twice if and only if it gives up, with retries left, a request of the event that was stored or is under way |
| AtMostOnce.PrematureRetryDeliversTwice | apis/events/src/mbus_nats.rs:272-314 | giving up a request that was handed out already, in whatever subscription, can lead to the event being handed out again as another message |
| HandedTwice.UnseenStaysUnseen | apis/events/src/mbus_nats.rs:283-324 | over every run, a request given up before it was handed out, and gone from stream and network, is never handed out |
| HandedTwice.SecondMessageWasGivenUp | apis/events/src/mbus_nats.rs:272-314 | over every run, whatever happened to other events: of two messages of one event handed out, over all subscriptions, the request of one was given up at some step with retries left while it was handed out, in the stream or under way |
| HandedTwice.DiscreetEventIsOneMessage | apis/events/src/mbus_nats.rs:272-314 | an event of which no request is given up like that is handed out as one message |
| HandedTwice.VisibleRetryHandsOutTwice | apis/events/src/mbus_nats.rs:310-314 | from every reachable state, giving up a request that was handed out, is in the stream or is under way can lead to two messages of its event being handed out |
| HandedTwice.HandedTwiceExactlyAfterVisibleRetry | apis/events/src/mbus_nats.rs:272-314 | for every run and every event of which nothing was given up like that so far: a step can be followed, without such a step for the event, until the event was handed out as two messages if and only if it gives up, with retries left, a request of the event that was handed out, is in the stream or is under way |
| PipelineRuns.LostAckDeliversTwice | apis/events/src/mbus_nats.rs:272-274 | a run, served in order, in which the one event traced reaches the subscriber twice, under two sequence numbers |
| PipelineRuns.RestartDeliversTwice | apis/events/src/mbus_nats.rs:206-216 | a run, served in order, in which the stream is lost after the one event was handed out, and its retry is stored alone in a new stream and handed out too |
| PipelineRuns.OvertakenRequestBreaksOrder | apis/events/src/mbus_nats.rs:327-328 | a run in which a request is overtaken by its own retry and the next event, and the stream ends out of the order of acceptance |
| Durations.Duration.Normalize | prost-extend/src/duration.rs:39-82 | all branches together: the clamped total, split toward zero; the two saturating arms of the sign repair cannot be reached |
| Durations.NormalizedIsTheOnlyNormalForm | prost-extend/src/duration.rs:33-38 | a pair with nanos in range, signs agreeing and the clamped total is the result, and no other pair is |
| Durations.NormalizeIdempotent | prost-extend/src/duration.rs:39-82 | normalising twice is normalising once, and exactly the normal pairs are left alone |
| Durations.CutExactlyWhenTooLong | prost-extend/src/duration.rs:39-82 | the total is cut exactly when no normal pair has it |
| Durations.NormalizeMonotone | prost-extend/src/duration.rs:39-82 | a longer input never gives a shorter result |
| Durations.OrderIsTimeOrder | prost-extend/src/duration.rs:39-82 | on normal pairs lexicographic order is time order |
| Durations.Duration.Display | prost-extend/src/duration.rs:11-30 | the text written, or the panic of `abs` |
| Durations.DisplayReadsBack | prost-extend/src/duration.rs:11-30 | no text exactly at the least second; otherwise the text reads back as the normalised total if and only if the input is not negative or both its fields are |
| Durations.MagnitudeReadsBack | prost-extend/src/duration.rs:17-29 | the unsigned text is exact for every number of fraction digits |
| Durations.FewestDigits | prost-extend/src/duration.rs:19-29 | of 0, 3, 6 and 9 fraction digits the fewest that lose nothing are used |
| Durations.MinusOneSecondPrintsPositive | prost-extend/src/duration.rs:14-16 | (-1 s, 0 ns) prints "1s" |
| Durations.Duration.TryFromStd | prost-extend/src/duration.rs:133-140 | refused exactly when the seconds exceed an i64 |
| Durations.Duration.TryIntoStd | prost-extend/src/duration.rs:146-159 | the normalised value, or its magnitude as an error, or a panic |
| Durations.StdRoundTrip | prost-extend/src/duration.rs:129-160 | every standard duration in range comes back unchanged |
| Durations.ProtoRoundTrip | prost-extend/src/duration.rs:142-160 | a non-negative input comes back normalised, a negative one reports its exact magnitude, a panic exactly at the least second |
| Timestamps.Timestamp.Normalize | prost-extend/src/timestamp.rs:26-61 | all branches together: floor and remainder of the clamped total, the underflow of the second stage included |
| Timestamps.NormalizedIsTheOnlyNormalForm | prost-extend/src/timestamp.rs:20-25 | the result is the only pair with nanos in [0, 999999999] and the clamped total |
| Timestamps.NormalizeIdempotent | prost-extend/src/timestamp.rs:26-61 | normalising twice is normalising once, and exactly the normal pairs are left alone |
| Timestamps.CutExactlyWhenOutOfRange | prost-extend/src/timestamp.rs:26-61 | the total is cut exactly when no normal pair has it |
| Timestamps.NormalizeMonotone | prost-extend/src/timestamp.rs:26-61 | a later input never gives an earlier result |
| Timestamps.SameTimeAsDuration | prost-extend/src/timestamp.rs:26-61 | timestamp and duration keep the same time exactly when the input is not before the earliest timestamp |
| Composer.Builder.FindNextIp | composer/src/composer.rs:666-680 | the scan gives the first free candidate |
| Composer.FirstFreeIsLeast | composer/src/composer.rs:666-680 | the result is the least free offset from 2 to 255 inside the network, and there is none exactly when all are taken |
| Composer.RoomMeansAddress | composer/src/composer.rs:666-680 | an address is found whenever fewer than min(size, 256) - 2 are in use |
| Composer.UsedIsBounded | composer/src/composer.rs:669-670 | at most one address for each planned or existing container |
| Composer.RoomMeansNoPanic | composer/src/composer.rs:751-767 | a builder with fewer containers than candidates can add another |
| Composer.Builder.AddContainerSpec | composer/src/composer.rs:751-767 | reuse, host mode, fresh address or panic, with the whole new state |
| Composer.AddKeepsDistinct | composer/src/composer.rs:751-767 | reuse leaves the addresses in use as they are, a new container adds one nobody has, all stay distinct, the container exists afterwards |
| Composer.DistinctAfterAdd | composer/src/composer.rs:758-759 | addresses stay distinct exactly unless a new container in host mode finds the host's address taken |
| Composer.ChainKeepsDistinct | composer/src/composer.rs:698-767 | over every chain of calls outside host mode, network changes included, addresses stay distinct |
| Composer.ExistsExactlyIfAdded | composer/src/composer.rs:745-767 | after any chain of calls a name exists exactly if it did before or was added |
| Composer.WellKnownAddresses | composer/src/composer.rs:46 | the default network is 10.1.0.0/16, and the host 127.0.0.1 |
| Composer.HostModeRepeatsAddress | composer/src/composer.rs:758-759 | two new containers in host mode share an address |
| Composer.AddressesAreSequential | composer/src/composer.rs:666-680 | with nothing existing the k-th container, from 0, gets base + 2 + k and none is refused while candidates last |
| Composer.AddUsesForetoldAddress | composer/src/composer.rs:683-689 | outside host mode adding uses the address foretold for the name and panics exactly when none is |
| Composer.BuiltHasLast | composer/src/composer.rs:984-988 | the built map keeps the last container of each name |
| Composer.BuiltAddressesDiffer | composer/src/composer.rs:984-988 | containers of different names start with different addresses |
| ContainerCommands.Merge | composer/src/composer.rs:1442-1470 | the branches of the merge have one closed form: E, image entrypoint, image command, then the spec's commands |
| ContainerCommands.ArgumentsAccumulate | composer/src/composer.rs:425-434 | repeated argument calls concatenate and change nothing else |
| ContainerCommands.ArgumentsComeLast | composer/src/composer.rs:512-523 | the user's arguments end the command line in the order given, for every image, entrypoint, binary and command |
| ContainerCommands.CommandComesFirst | composer/src/composer.rs:511-542 | whatever a spec names to run stands in front of its own commands |
| ContainerCommands.BinaryRuns | composer/src/composer.rs:217-235 | for every image: a binary is followed by its own arguments, the nats argument with the address of the server if it takes one, and the user's; in front stands the entrypoint given, else tini, else the image's |
| ContainerCommands.CommandRuns | composer/src/composer.rs:1442-1470 | for every image: a command is followed by the user's arguments, under the entrypoint given or the image's, and the image's command plays no part |
| ContainerCommands.ImageRuns | composer/src/composer.rs:1442-1470 | with neither, the entrypoint given, the image's entrypoint and command, and the user's arguments |
| Utf8.DecodeEncode | devinfo/src/mountinfo/mod.rs:75-77 | strict decoding undoes encoding for every string |
| Utf8.EncodeDecode | devinfo/src/mountinfo/mod.rs:75-77 | strict decoding accepts nothing but what encoding writes |
| MountInfos.ParseValue | devinfo/src/mountinfo/mod.rs:115-141 | the nested loops compute the unescaping, first error first |
| MountInfos.UnescapeExact | devinfo/src/mountinfo/mod.rs:115-141 | fails exactly on a backslash without three octal digits, otherwise shortens by three bytes an escape |
| MountInfos.EscapeIsItsCode | devinfo/src/mountinfo/mod.rs:122-132 | an escape is its octal code modulo 256 |
| MountInfos.OctalDigits | devinfo/src/mountinfo/mod.rs:122-132 | the octal digits are 0 to 7, each with its value |
| MountInfos.BadEscapeIsReported | devinfo/src/mountinfo/mod.rs:115-141 | a bad escape is reported by what comes first, a character that is no digit or the end of the text |
| MountInfos.UnescapeEscape | devinfo/src/mountinfo/mod.rs:115-141 | undoes any escaping that covers backslash and white space |
| MountInfos.LineRoundTrip | devinfo/src/mountinfo/mod.rs:50-98 | a line written with non-empty paths is read back exactly, with any dump and pass numbers and anything after them |
| MountInfos.DiskLineRoundTrip | devinfo/src/mountinfo/mod.rs:79-83 | a source under /dev/disk/by- is read as the device it names, and the line fails with the lookup |
| MountInfos.NumbersReadBack | devinfo/src/mountinfo/mod.rs:62-72 | dump and pass numbers are exactly those of an i32, with a plus sign or not |
| MountInfos.BadFieldsAreRefused | devinfo/src/mountinfo/mod.rs:57-72 | fewer than four fields, or a dump or pass field that is no number, is refused for just that |
| MountInfos.NoLineHasEmptyPath | devinfo/src/mountinfo/mod.rs:50-98 | no line at all reads as an empty path, so the round trip cannot hold for one |
| MountInfos.DisplayRoundTrip | devinfo/src/mountinfo/mod.rs:30-45 | displaying and reading is the identity on paths without white space or backslash; no options read back as "defaults" |
| MountInfos.MountIter.Next | devinfo/src/mountinfo/mod.rs:208-222 | one item off the list of all items; blank lines and comments give none |
| MountInfos.LineYields | devinfo/src/mountinfo/mod.rs:208-222 | a written line, leading white space included, yields its entry; a blank line, a comment, or an entry that looks like one yields nothing |
| MountInfos.TableReadsBack | devinfo/src/mountinfo/mod.rs:208-222 | a written table with blank lines and comments anywhere in it reads back as exactly its entries, in order |
| MountInfos.BrokenLineIsOneError | devinfo/src/mountinfo/mod.rs:219 | a line that cannot be read is one error wherever it stands, and the lines around it are read all the same |
| MountInfos.SourceMountedAt | devinfo/src/mountinfo/mod.rs:183-202 | the first entry of the source decides, an earlier error is returned |
| MountInfos.FirstMountDecides | devinfo/src/mountinfo/mod.rs:193-199 | the first entry of the source, or an error before it, decides, for any path equality |
| MountInfos.FirstMountIsExact | devinfo/src/mountinfo/mod.rs:178-202 | for every equivalence of paths: the answer is right for every path if and only if no error comes before the first entry of the source and all its entries have one destination |
| MountInfos.SecondMountIsDenied | devinfo/src/mountinfo/mod.rs:178-202 | with two destinations the second is denied, for any path equality |
| ConsistentReads.ConsistentRead | devinfo/src/mountinfo/io_utils.rs:9-30 | the first content seen twice in a row; the first read error before that; otherwise inconsistent, exactly when all adjacent reads differ |
| ConsistentReads.ReadsSettleOneWay | devinfo/src/mountinfo/io_utils.rs:9-30 | either one read decides, and only one, or no two adjacent reads agree |
| NvmeAddresses.ParseAddress | nvmeadm/src/nvmf_subsystem.rs:85-106 | on every string the fold agrees with the map lookups, and its unknowns are the other pairs in order |
| NvmeAddresses.MatchHostPort | nvmeadm/src/nvmf_subsystem.rs:114-118 | equivalent to two lookups in the map of `collect` |
| NvmeAddresses.Display | nvmeadm/src/nvmf_discovery.rs:582-616 | the writes produce the pieces joined by commas, an empty piece when only the host id is given |
| NvmeAddresses.PrintThenRead | nvmeadm/src/nvmf_discovery.rs:582-616 | reading the text back gives exactly the set fields under their keys if and only if no value holds a comma |
| NvmeAddresses.TransportReadsBack | nvmeadm/src/nvmf_discovery.rs:70-99 | the source's own reader takes the name of each transport back to it, and no other text to it |
| NvmeAddresses.PrintedSaysArguments | nvmeadm/src/nvmf_discovery.rs:582-616 | found in the text read back: every argument under its own key, the transport by the source's reader, and the host fields case by case, given, derived from the prefix and id, or the machine's own |
| NvmeAddresses.PrintedTargetMatches | nvmeadm/src/nvmf_subsystem.rs:74-76 | the printed target is recognised by the address check |
| NvmeAddresses.CollectedHaveNoCommas | nvmeadm/src/nvmf_subsystem.rs:120-125 | no text reads as a value with a comma |
| NvmeDiscoveries.LogPageLengthIsExact | nvmeadm/src/nvmf_discovery.rs:303-322 | the two command words decode to the computed length exactly up to 2^34 bytes and the buffer length exactly below 2^32, the log id always intact; the length overflows exactly beyond 64 bits |
| NvmeDiscoveries.FourGibibytesCutBuffer | nvmeadm/src/nvmf_discovery.rs:303-322 | 4194303 records: the length asked for is 4 GiB, the buffer length 0 |
| NvmeDiscoveries.CommandReadsBack | nvmeadm/src/nvmf_discovery.rs:317-322 | any count of dwords survives the split over the two words |
| NvmeDiscoveries.FieldsComeApart | nvmeadm/src/nvmf_discovery.rs:321 | a low field or-ed below a shifted one comes apart again |
| NvmeDiscoveries.HalvesMakeWhole | nvmeadm/src/nvmf_discovery.rs:318-319 | mask and shift lose no bit |
| NvmeDiscoveries.Discovery.AddRecords | nvmeadm/src/nvmf_discovery.rs:340-379 | appends the decodable records in page order |
| NvmeDiscoveries.CollectedExactly | nvmeadm/src/nvmf_discovery.rs:340-379 | a record is collected exactly when some raw record decodes to it |
| NvmeDiscoveries.DecodesExactly | nvmeadm/src/nvmf_discovery.rs:340-379 | a raw record decodes to an entry exactly when it is that entry as a page holds it, every code and text in its place |
| NvmeDiscoveries.DecodedInOrder | nvmeadm/src/nvmf_discovery.rs:340-379 | the records of two pages are those of the first and then those of the second |
| NvmeDiscoveries.ParseConnection | nvmeadm/src/nvmf_discovery.rs:462-511 | the outcome of the connection string, error cases included |
| NvmeDiscoveries.OpensExactly | nvmeadm/src/nvmf_discovery.rs:462-511 | an instance is opened exactly when a well-formed one follows nothing but controller ids |
| NvmeDiscoveries.PieceDecides | nvmeadm/src/nvmf_discovery.rs:462-511 | the first piece that is no controller id decides, with the exact error for each way it can be wrong |
| NvmeDiscoveries.InstanceExactly | nvmeadm/src/nvmf_discovery.rs:479-495 | a text is the number of an instance exactly when it is digits worth it, at least one, after at most one plus sign, within a u64 |
| NvmeDiscoveries.KernelAnswerOpens | nvmeadm/src/nvmf_discovery.rs:460-461 | "instance=X,cntlid=Y" opens X |
| GitVersions.MatchIsLongestReading | version-info/src/git_utils.rs:119 | the captures of the backtracking match are a reading of the text, and no reading has a longer tag |
| GitVersions.GreedyFindsLongest | version-info/src/git_utils.rs:119 | a greedy group takes the longest prefix that lets the rest match |
| GitVersions.ParsedExactlyReadable | version-info/src/git_utils.rs:118-134 | a text is split exactly when a reading of it exists |
| GitVersions.HexDigitsAre | version-info/src/git_utils.rs:119 | the characters of a hash are 0 to 9 and a to f |
| GitVersions.DescribeOfParsed | version-info/src/git_utils.rs:118-134 | printing the parsed parts gives every input back |
| GitVersions.ParseOfDescribed | version-info/src/git_utils.rs:118-134 | what `git describe --long` prints is taken apart exactly, dashes and "-g" in the tag or not |

## Left out

- Events.SubjectInjective: the text of the id is arbitrary here; whether the server accepts it as a subject token is not modelled.
- MbusNats.NatsMessageBus.BackoffWithOptions: delays are unbounded whole seconds, so the overflow of `Duration` arithmetic is not modelled; the retry counter must have room for one more.
- MountInfos.SourceMountedAt: path equality is a parameter, of which `FirstMountIsExact` assumes that it is an equivalence.
- The JSON library is a parameter (`Codec`); end to end it is only assumed to read the payloads it wrote.
- Source, timestamp and version of an event's metadata travel as opaque bytes.
- The channel closing while the publisher still works (its task aborted) is modelled in `TrySend` and `OnEvent` but is not a step of the state machine.
- EventPublisher.PublishEvents: the senders are gone after finitely many messages; the runs of `Pipeline` have no such end.
- The byte limit of the stream is the eviction step, which may happen at any time; the number of replicas plays no part.
- Connecting to the message bus, an unbounded loop around the same backoff.
- Time itself: sleeps and the ten second publish timeout are counted, not waited for.
- `chrono` conversions, printing and parsing of timestamps, and the serde code: library behaviour.
- Device lookup under /dev/disk/by- is a parameter; partition ids are not modelled.
- A line of the mount table that is not UTF-8 is a read error of the iterator; the buffering of reads is not modelled.
- `Ipv4Network` is its base address and size; its parsing from text is not modelled.
- Loading existing containers from docker, building, starting, stopping and logging of containers.
- Port maps, binds, environment and mounts of a container: record work.
- The host's id and name are parameters of the connect arguments; builder validation, the ioctl and the unsafe decoding of text fields are left out.
- Secret providers, platform selection, sysfs helpers, tracing filters and the git-version macro.
