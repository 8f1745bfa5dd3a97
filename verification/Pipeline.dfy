/**
 * The event pipeline as a state machine: traced events enter a bounded channel, the
 * publisher takes them one at a time and publishes each with retries, the server keeps a
 * stream, and a consumer delivers from it. A run is any interleaving of the steps below.
 *
 * The environment may refuse, delay or lose a request, lose its reply, let the client time
 * out, lose the stream, evict from its front and deliver a message again. What is assumed
 * of it: the stream holds at most one message a subject, the last one stored. Requests may be
 * served in any order; what needs the requests of this one client to be served in the order
 * they were sent says so (`InOrder`).
 */
module Pipeline {
  import opened Wrappers
  import opened Events
  import opened Retry
  import opened MbusNats
  import opened EventPublisher

  // `id` counts the requests sent and `origin` the events accepted: history, which the server never reads.
  datatype Request = Request(id: nat, origin: nat, subject: string, payload: Bytes)

  datatype Entry = Entry(sequence: nat, request: Request)

  /** `stored` is everything stored since the stream was created; the i-th has sequence number i + 1. */
  datatype Stream = Stream(stored: seq<Request>, entries: seq<Entry>)

  datatype Publisher =
    | Idle
    | Busy(message: EventMessage, subject: string, payload: Bytes, phase: Phase, awaiting: Option<nat>)
    | Stopped

  datatype Recorded = Recorded(message: EventMessage, accepted: bool)

  datatype Handled = Handled(message: EventMessage, outcome: Outcome)

  datatype State = State(
    recorded: seq<Recorded>,
    sendersGone: bool,
    buffer: seq<EventMessage>,
    publisher: Publisher,
    handled: seq<Handled>,
    sent: seq<Request>,
    network: seq<Request>,
    replies: map<nat, PublishReply>,
    stream: Option<Stream>,
    acknowledged: set<(nat, nat)>,
    consumer: Option<nat>,
    delivered: seq<Entry>)

  const INIT := State([], false, [], Idle, [], [], [], map[], None, {}, None, [])

  datatype Label =
    // producer and channel
    | Record(fields: seq<Field>)
    | CloseSenders
    | Take
    | Stop
    // publisher and server
    | Send
    | Receive
    | Fail(reply: PublishReply)
    | Create(applied: bool, ok: bool)
    // network and server
    | Serve(index: nat)
    | Refuse(index: nat)
    | LoseRequest(index: nat)
    | LoseReply(id: nat)
    | LoseStream
    | MakeStream
    | Evict
    // consumer
    | Attach(cursor: nat)
    | Detach
    | Deliver(index: nat)

  predicate Enabled(s: State, l: Label) {
    match l
    case Record(_) => !s.sendersGone
    case CloseSenders => true
    case Take => s.publisher.Idle? && s.buffer != []
    case Stop => s.publisher.Idle? && s.buffer == [] && s.sendersGone
    case Send => s.publisher.Busy? && s.publisher.phase.Publishing? && s.publisher.awaiting.None?
    case Receive =>
      s.publisher.Busy? && s.publisher.phase.Publishing?
      && s.publisher.awaiting.Some? && s.publisher.awaiting.value in s.replies
    case Fail(reply) => s.publisher.Busy? && s.publisher.phase.Publishing? && !reply.Ack?
    case Create(applied, ok) => s.publisher.Busy? && s.publisher.phase.Creating? && (ok ==> applied)
    case Serve(i) => i < |s.network|
    case Refuse(i) => i < |s.network|
    case LoseRequest(i) => i < |s.network|
    case LoseReply(id) => id in s.replies
    case LoseStream => s.stream.Some?
    case MakeStream => s.stream.None?
    case Evict => s.stream.Some? && s.stream.value.entries != []
    case Attach(cursor) => s.stream.Some? && cursor <= |s.stream.value.stored|
    case Detach => true
    case Deliver(i) => s.consumer.Some? && s.stream.Some? && MayDeliver(s.stream.value.entries, s.consumer.value, i)
  }

  /** The message at the cursor again, or the first one after it. */
  predicate MayDeliver(entries: seq<Entry>, cursor: nat, i: nat) {
    && i < |entries|
    && cursor <= entries[i].sequence
    && forall j | 0 <= j < i :: entries[j].sequence <= cursor
  }

  function Apply(codec: Codec, s: State, l: Label): State
    requires Enabled(s, l)
  {
    match l
    case Record(fields) =>
      var m, room := Visited(codec, fields), |s.buffer| < MAX_BUFFER_MSGS;
      s.(recorded := s.recorded + [Recorded(m, room)], buffer := Offer(s.buffer, MAX_BUFFER_MSGS, m))
    case CloseSenders => s.(sendersGone := true)
    case Take => Start(codec, s.(buffer := s.buffer[1..]), s.buffer[0])
    case Stop => s.(publisher := Stopped)
    case Send =>
      var r := Request(|s.sent|, |s.handled|, s.publisher.subject, s.publisher.payload);
      s.(sent := s.sent + [r], network := s.network + [r], publisher := s.publisher.(awaiting := Some(r.id)))
    case Receive | Fail(_) | Create(_, _) => Proceed(WithStream(s, l), NextPhase(s, l))
    case Serve(i) => ServeOne(s, i)
    case Refuse(i) => s.(network := Removed(s.network, i), replies := s.replies[s.network[i].id := OtherError])
    case LoseRequest(i) => s.(network := Removed(s.network, i))
    case LoseReply(id) => s.(replies := s.replies - {id})
    case LoseStream => s.(stream := None, consumer := None)
    case MakeStream => Ensure(s)
    case Evict => s.(stream := Some(s.stream.value.(entries := s.stream.value.entries[1..])))
    case Attach(cursor) => s.(consumer := Some(cursor), delivered := [])
    case Detach => s.(consumer := None)
    case Deliver(i) =>
      var e := s.stream.value.entries[i];
      s.(consumer := Some(e.sequence), delivered := s.delivered + [e])
  }

  /** The steps of `publish` after an answer, or the lack of one. */
  predicate IsAnswer(l: Label) {
    l.Receive? || l.Fail? || l.Create?
  }

  /** A creation request that was carried out has left a stream, whether or not its answer says so. */
  function WithStream(s: State, l: Label): State {
    if l.Create? && l.applied then Ensure(s) else s
  }

  /** Where `publish` stands after an answer. */
  function NextPhase(s: State, l: Label): Phase
    requires Enabled(s, l) && IsAnswer(l)
  {
    var p := s.publisher.phase;
    if l.Create? then AfterCreate(p.tries, p.createTries, l.ok, DEFAULT_OPTIONS).0
    else if l.Fail? then AfterReply(p.tries, l.reply, PUBLISH_OPTIONS).0
    else AfterReply(p.tries, s.replies[s.publisher.awaiting.value], PUBLISH_OPTIONS).0
  }

  /** `publish` of a taken message, up to its first request. */
  function Start(codec: Codec, s: State, m: EventMessage): State {
    match Subject(m)
    case None => s.(handled := s.handled + [Handled(m, Err(InvalidMessageId))])
    case Some(subject) =>
      match codec.encode(m)
      case None => s.(handled := s.handled + [Handled(m, Err(SerializeError))])
      case Some(payload) => s.(publisher := Busy(m, subject, payload, Publishing(0), None))
  }

  function Proceed(s: State, phase: Phase): State
    requires s.publisher.Busy?
  {
    if phase.Done? then s.(publisher := Idle, handled := s.handled + [Handled(s.publisher.message, phase.outcome)])
    else s.(publisher := s.publisher.(phase := phase, awaiting := None))
  }

  /** Creating the stream where there is one already changes nothing. */
  function Ensure(s: State): State {
    if s.stream.Some? then s else s.(stream := Some(Stream([], [])))
  }

  function Removed(network: seq<Request>, i: nat): seq<Request>
    requires i < |network|
  {
    network[..i] + network[i + 1..]
  }

  /** The server takes a request: stores it, or answers that there is no stream. */
  function ServeOne(s: State, i: nat): State
    requires i < |s.network|
  {
    var r, rest := s.network[i], Removed(s.network, i);
    match s.stream
    case None => s.(network := rest, replies := s.replies[r.id := StreamNotFound])
    case Some(stream) =>
      var sequence := |stream.stored| + 1;
      s.(network := rest, stream := Some(Store(stream, r)), replies := s.replies[r.id := Ack(sequence)],
         acknowledged := s.acknowledged + {(r.origin, sequence)})
  }

  /** At most one message a subject: storing a message removes the one it replaces. */
  function Store(stream: Stream, r: Request): Stream {
    Stream(stream.stored + [r], Without(stream.entries, r.subject) + [Entry(|stream.stored| + 1, r)])
  }

  function Without(entries: seq<Entry>, subject: string): seq<Entry> {
    if entries == [] then []
    else
      var kept := Without(entries[..|entries| - 1], subject);
      var last := entries[|entries| - 1];
      if last.request.subject == subject then kept else kept + [last]
  }

  /** The state a run leads to; None if some step of it is not enabled. */
  function Exec(codec: Codec, run: seq<Label>): Option<State> {
    if run == [] then Some(INIT)
    else
      match Exec(codec, run[..|run| - 1])
      case None => None
      case Some(s) => if Enabled(s, run[|run| - 1]) then Some(Apply(codec, s, run[|run| - 1])) else None
  }

  /** The server takes a request before one that was sent earlier and is still under way. */
  predicate Overtakes(l: Label) {
    l.Serve? && l.index > 0
  }

  /** Requests are served in the order they were sent: one connection, one server. */
  ghost predicate InOrder(run: seq<Label>) {
    forall k | 0 <= k < |run| :: !Overtakes(run[k])
  }

  // ---- what is read off a state ----

  /** The events that found room in the channel, in order. */
  function Accepted(recorded: seq<Recorded>): seq<EventMessage> {
    if recorded == [] then []
    else
      var last := recorded[|recorded| - 1];
      Accepted(recorded[..|recorded| - 1]) + if last.accepted then [last.message] else []
  }

  function Dropped(recorded: seq<Recorded>): seq<EventMessage> {
    if recorded == [] then []
    else
      var last := recorded[|recorded| - 1];
      Dropped(recorded[..|recorded| - 1]) + if last.accepted then [] else [last.message]
  }

  function HandledMessages(handled: seq<Handled>): seq<EventMessage> {
    if handled == [] then []
    else HandledMessages(handled[..|handled| - 1]) + [handled[|handled| - 1].message]
  }

  function InFlight(p: Publisher): seq<EventMessage> {
    if p.Busy? then [p.message] else []
  }

  // ---- the invariant ----

  ghost predicate ChannelInv(s: State) {
    && Accepted(s.recorded) == HandledMessages(s.handled) + InFlight(s.publisher) + s.buffer
    && |HandledMessages(s.handled)| == |s.handled|
    && |s.buffer| <= MAX_BUFFER_MSGS
    && (s.publisher.Stopped? ==> s.buffer == [] && s.sendersGone)
  }

  ghost predicate PublisherInv(codec: Codec, s: State) {
    s.publisher.Busy? ==>
      && Subject(s.publisher.message) == Some(s.publisher.subject)
      && codec.encode(s.publisher.message) == Some(s.publisher.payload)
      && s.publisher.phase.Within(PUBLISH_OPTIONS, DEFAULT_OPTIONS) && !s.publisher.phase.Done?
      && (s.publisher.awaiting.Some? ==>
            && s.publisher.phase.Publishing?
            && s.publisher.awaiting.value < |s.sent|
            && s.sent[s.publisher.awaiting.value].origin == |s.handled|)
  }

  /** How many events the publisher has begun. */
  function Begun(s: State): nat {
    |s.handled| + |InFlight(s.publisher)|
  }

  /** A request carries the subject and payload of the event it came from. */
  ghost predicate Genuine(codec: Codec, r: Request, accepted: seq<EventMessage>) {
    && r.origin < |accepted|
    && Subject(accepted[r.origin]) == Some(r.subject)
    && codec.encode(accepted[r.origin]) == Some(r.payload)
  }

  ghost predicate SentInv(codec: Codec, s: State) {
    && (forall i | 0 <= i < |s.sent| :: s.sent[i].id == i && s.sent[i].origin < Begun(s))
    && (forall i | 0 <= i < |s.sent| :: Genuine(codec, s.sent[i], Accepted(s.recorded)))
    && (forall i, j | 0 <= i < j < |s.sent| :: s.sent[i].origin <= s.sent[j].origin)
  }

  ghost predicate WasSent(sent: seq<Request>, r: Request) {
    r.id < |sent| && sent[r.id] == r
  }

  /** Requests that were sent, none of them twice. */
  ghost predicate SentOnce(sent: seq<Request>, requests: seq<Request>) {
    && (forall i | 0 <= i < |requests| :: WasSent(sent, requests[i]))
    && (forall i, j | 0 <= i < j < |requests| :: requests[i].id != requests[j].id)
  }

  /** They stand in the order they were sent. */
  ghost predicate Increasing(requests: seq<Request>) {
    forall i, j | 0 <= i < j < |requests| :: requests[i].id < requests[j].id
  }

  function StoredOf(s: State): seq<Request> {
    if s.stream.Some? then s.stream.value.stored else []
  }

  /** What was stored, followed by what is under way. */
  function Wire(s: State): seq<Request> {
    StoredOf(s) + s.network
  }

  ghost predicate WireInv(s: State) {
    SentOnce(s.sent, Wire(s))
  }

  ghost predicate EntryOf(stream: Stream, e: Entry) {
    1 <= e.sequence <= |stream.stored| && stream.stored[e.sequence - 1] == e.request
  }

  /** Entries were stored, stand in sequence order, and differ in subject. */
  ghost predicate EntriesInv(stream: Stream, entries: seq<Entry>) {
    && (forall i | 0 <= i < |entries| :: EntryOf(stream, entries[i]))
    && (forall i, j | 0 <= i < j < |entries| :: entries[i].sequence < entries[j].sequence)
    && (forall i, j | 0 <= i < j < |entries| :: entries[i].request.subject != entries[j].request.subject)
  }

  ghost predicate StreamInv(s: State) {
    s.stream.Some? ==> EntriesInv(s.stream.value, s.stream.value.entries)
  }

  ghost predicate AckInv(s: State) {
    && (forall id | id in s.replies && s.replies[id].Ack? ::
          id < |s.sent| && (s.sent[id].origin, s.replies[id].sequence) in s.acknowledged)
    && (forall k | 0 <= k < |s.handled| && s.handled[k].outcome.Ok? ::
          (k, s.handled[k].outcome.value) in s.acknowledged)
  }

  ghost predicate ConsumerInv(s: State) {
    && (forall i | 0 <= i < |s.delivered| :: WasSent(s.sent, s.delivered[i].request))
    && (s.consumer.Some? ==>
          && s.stream.Some?
          && s.consumer.value <= |s.stream.value.stored|
          && forall i | 0 <= i < |s.delivered| ::
               s.delivered[i].sequence <= s.consumer.value && EntryOf(s.stream.value, s.delivered[i]))
  }

  /** The publish requests spent on the event in flight. */
  function Spent(p: Publisher): nat {
    if !p.Busy? then 0
    else match p.phase
      case Publishing(t) => if p.awaiting.Some? then t + 1 else t
      case Creating(t, _) => t + 1
      case Done(_) => 0
  }

  ghost predicate EffortInv(s: State) {
    |s.sent| <= 11 * |s.handled| + Spent(s.publisher)
  }

  ghost predicate Inv(codec: Codec, s: State) {
    && ChannelInv(s) && PublisherInv(codec, s) && SentInv(codec, s) && WireInv(s)
    && StreamInv(s) && AckInv(s) && ConsumerInv(s) && EffortInv(s)
  }

  /** What in-order service adds: the wire and the deliveries stand in sending order. */
  ghost predicate OrderInv(s: State) {
    && Increasing(Wire(s))
    && (forall i, j | 0 <= i < j < |s.delivered| :: s.delivered[i].request.id <= s.delivered[j].request.id)
  }

  // ---- every step keeps it ----

  lemma ProceedKeepsChannel(s: State, phase: Phase)
    requires ChannelInv(s) && s.publisher.Busy?
    ensures ChannelInv(Proceed(s, phase)) && Begun(s) == Begun(Proceed(s, phase))
  {
  }

  lemma StartKeepsChannel(codec: Codec, s: State, m: EventMessage)
    requires s.publisher.Idle? && |s.buffer| <= MAX_BUFFER_MSGS && |HandledMessages(s.handled)| == |s.handled|
    requires Accepted(s.recorded) == HandledMessages(s.handled) + [m] + s.buffer
    ensures ChannelInv(Start(codec, s, m)) && Begun(Start(codec, s, m)) == Begun(s) + 1
  {
  }

  lemma TakeKeepsChannel(codec: Codec, s: State)
    requires ChannelInv(s) && Enabled(s, Take)
    ensures ChannelInv(Apply(codec, s, Take)) && Begun(s) < Begun(Apply(codec, s, Take))
    ensures Accepted(s.recorded) == Accepted(Apply(codec, s, Take).recorded)
  {
    var taken := s.(buffer := s.buffer[1..]);
    assert s.buffer == [s.buffer[0]] + s.buffer[1..];
    assert Accepted(s.recorded) == HandledMessages(s.handled) + [s.buffer[0]] + taken.buffer;
    StartKeepsChannel(codec, taken, s.buffer[0]);
  }

  lemma RecordKeepsChannel(s: State, m: EventMessage, room: bool)
    requires ChannelInv(s) && room == (|s.buffer| < MAX_BUFFER_MSGS) && !s.sendersGone
    ensures var t := s.(recorded := s.recorded + [Recorded(m, room)], buffer := Offer(s.buffer, MAX_BUFFER_MSGS, m));
            ChannelInv(t) && Begun(s) == Begun(t) && Accepted(s.recorded) <= Accepted(t.recorded)
  {
  }

  lemma ChannelKept(codec: Codec, s: State, l: Label)
    requires ChannelInv(s) && Enabled(s, l)
    ensures ChannelInv(Apply(codec, s, l)) && Begun(s) <= Begun(Apply(codec, s, l))
    ensures Accepted(s.recorded) <= Accepted(Apply(codec, s, l).recorded)
  {
    if l.Record? {
      RecordKeepsChannel(s, Visited(codec, l.fields), |s.buffer| < MAX_BUFFER_MSGS);
    } else if l.Take? {
      TakeKeepsChannel(codec, s);
    } else if IsAnswer(l) {
      ProceedKeepsChannel(WithStream(s, l), NextPhase(s, l));
    } else {
      OtherStepsKeepChannel(codec, s, l);
    }
  }

  lemma OtherStepsKeepChannel(codec: Codec, s: State, l: Label)
    requires ChannelInv(s) && Enabled(s, l)
    requires !l.Record? && !l.Take? && !IsAnswer(l)
    ensures ChannelInv(Apply(codec, s, l)) && Begun(s) == Begun(Apply(codec, s, l))
    ensures Accepted(s.recorded) == Accepted(Apply(codec, s, l).recorded)
  {
  }

  lemma ProceedKeepsPublisher(codec: Codec, s: State, phase: Phase)
    requires PublisherInv(codec, s) && s.publisher.Busy? && phase.Within(PUBLISH_OPTIONS, DEFAULT_OPTIONS)
    ensures PublisherInv(codec, Proceed(s, phase))
  {
  }

  lemma PublisherKept(codec: Codec, s: State, l: Label)
    requires PublisherInv(codec, s) && Enabled(s, l)
    ensures PublisherInv(codec, Apply(codec, s, l))
  {
    if IsAnswer(l) {
      ProceedKeepsPublisher(codec, WithStream(s, l), NextPhase(s, l));
    }
  }

  lemma SentKept(codec: Codec, s: State, l: Label)
    requires ChannelInv(s) && PublisherInv(codec, s) && SentInv(codec, s) && Enabled(s, l)
    ensures SentInv(codec, Apply(codec, s, l))
  {
    ChannelKept(codec, s, l);
    var t := Apply(codec, s, l);
    if l.Send? {
      SendIsGenuine(codec, s);
    } else {
      assert t.sent == s.sent;
      SentStaysGenuine(codec, s, t);
    }
  }

  /** The event in flight is the accepted event that follows those handled. */
  lemma InFlightIsGenuine(codec: Codec, s: State, r: Request)
    requires ChannelInv(s) && PublisherInv(codec, s) && s.publisher.Busy?
    requires r.origin == |s.handled| && r.subject == s.publisher.subject && r.payload == s.publisher.payload
    ensures r.origin < Begun(s) && Genuine(codec, r, Accepted(s.recorded))
  {
    assert Accepted(s.recorded)[|HandledMessages(s.handled)|] == s.publisher.message;
  }

  lemma OneMoreSent(codec: Codec, s: State, t: State, r: Request)
    requires SentInv(codec, s) && r.id == |s.sent| && r.origin == Begun(s) - 1
    requires Genuine(codec, r, Accepted(s.recorded))
    requires t.sent == s.sent + [r] && t.recorded == s.recorded && Begun(t) == Begun(s)
    ensures SentInv(codec, t)
  {
    hide Genuine, Accepted;
  }

  lemma SendIsGenuine(codec: Codec, s: State)
    requires ChannelInv(s) && PublisherInv(codec, s) && SentInv(codec, s) && Enabled(s, Send)
    ensures SentInv(codec, Apply(codec, s, Send))
  {
    hide Genuine, Accepted, HandledMessages, SentInv, PublisherInv;
    var r := Request(|s.sent|, |s.handled|, s.publisher.subject, s.publisher.payload);
    InFlightIsGenuine(codec, s, r);
    OneMoreSent(codec, s, Apply(codec, s, Send), r);
  }

  lemma SentStaysGenuine(codec: Codec, s: State, t: State)
    requires SentInv(codec, s) && t.sent == s.sent && Begun(s) <= Begun(t)
    requires Accepted(s.recorded) <= Accepted(t.recorded)
    ensures SentInv(codec, t)
  {
  }

  /** What becomes of a wire: still requests that were sent, none twice, and in order if they were before. */
  ghost predicate Carries(sent: seq<Request>, before: seq<Request>, after: seq<Request>, ordered: bool) {
    SentOnce(sent, after) && (ordered && Increasing(before) ==> Increasing(after))
  }

  lemma RemovedCarries(sent: seq<Request>, stored: seq<Request>, network: seq<Request>, k: nat)
    requires SentOnce(sent, stored + network) && k < |network|
    ensures Carries(sent, stored + network, stored + Removed(network, k), true)
  {
    var before, after := stored + network, stored + Removed(network, k);
    forall i | 0 <= i < |after| ensures after[i] == before[if i < |stored| + k then i else i + 1] {
    }
  }

  lemma SuffixCarries(sent: seq<Request>, stored: seq<Request>, network: seq<Request>)
    requires SentOnce(sent, stored + network)
    ensures Carries(sent, stored + network, [] + network, true)
  {
    var before, after := stored + network, [] + network;
    forall i | 0 <= i < |network| ensures after[i] == before[|stored| + i] {
    }
  }

  /** Storing a request moves it from one side of the wire to the other, past those it overtakes. */
  lemma StoreCarries(sent: seq<Request>, stored: seq<Request>, network: seq<Request>, k: nat)
    requires SentOnce(sent, stored + network) && k < |network|
    ensures Carries(sent, stored + network, stored + [network[k]] + Removed(network, k), k == 0)
  {
    var before, after := stored + network, stored + [network[k]] + Removed(network, k);
    if k == 0 {
      assert after == before;
    } else {
      forall i | 0 <= i < |after|
        ensures after[i] == before[if i < |stored| then i else if i == |stored| then i + k
                                   else if i <= |stored| + k then i - 1 else i]
      {
      }
    }
  }

  lemma SentCarries(sent: seq<Request>, stored: seq<Request>, network: seq<Request>, r: Request)
    requires SentOnce(sent, stored + network) && r.id == |sent|
    ensures Carries(sent + [r], stored + network, stored + (network + [r]), true)
  {
    assert stored + (network + [r]) == stored + network + [r];
    assert forall i | 0 <= i < |stored + network| :: WasSent(sent, (stored + network)[i]);
  }

  lemma ServeKeepsWire(s: State, i: nat)
    requires WireInv(s) && i < |s.network|
    ensures var t := ServeOne(s, i); Carries(t.sent, Wire(s), Wire(t), i == 0)
  {
    if s.stream.Some? {
      StoreCarries(s.sent, StoredOf(s), s.network, i);
    } else {
      RemovedCarries(s.sent, [], s.network, i);
    }
  }

  lemma SendKeepsWire(codec: Codec, s: State)
    requires WireInv(s) && Enabled(s, Send)
    ensures var t := Apply(codec, s, Send); Carries(t.sent, Wire(s), Wire(t), true)
  {
    var r := Request(|s.sent|, |s.handled|, s.publisher.subject, s.publisher.payload);
    SentCarries(s.sent, StoredOf(s), s.network, r);
  }

  lemma RemovalKeepsWire(codec: Codec, s: State, l: Label)
    requires WireInv(s) && Enabled(s, l) && (l.Refuse? || l.LoseRequest?)
    ensures var t := Apply(codec, s, l); Carries(t.sent, Wire(s), Wire(t), true)
  {
    RemovedCarries(s.sent, StoredOf(s), s.network, l.index);
  }

  lemma OtherStepsKeepWire(codec: Codec, s: State, l: Label)
    requires Enabled(s, l)
    requires !l.Send? && !l.Serve? && !l.Refuse? && !l.LoseRequest? && !l.LoseStream?
    ensures var t := Apply(codec, s, l); Wire(t) == Wire(s) && t.sent == s.sent
  {
  }

  lemma WireKept(codec: Codec, s: State, l: Label)
    requires WireInv(s) && Enabled(s, l)
    ensures WireInv(Apply(codec, s, l))
    ensures Increasing(Wire(s)) && !Overtakes(l) ==> Increasing(Wire(Apply(codec, s, l)))
  {
    if l.Send? {
      SendKeepsWire(codec, s);
    } else if l.Serve? {
      ServeKeepsWire(s, l.index);
    } else if l.Refuse? || l.LoseRequest? {
      RemovalKeepsWire(codec, s, l);
    } else if l.LoseStream? {
      SuffixCarries(s.sent, StoredOf(s), s.network);
    } else {
      OtherStepsKeepWire(codec, s, l);
    }
  }

  lemma ProceedKeepsEffort(s: State, phase: Phase)
    requires EffortInv(s) && s.publisher.Busy?
    requires Spent(s.publisher) <= if phase.Done? then 11 else Spent(s.publisher.(phase := phase, awaiting := None))
    ensures EffortInv(Proceed(s, phase))
  {
  }

  lemma EffortKept(codec: Codec, s: State, l: Label)
    requires PublisherInv(codec, s) && EffortInv(s) && Enabled(s, l)
    ensures EffortInv(Apply(codec, s, l))
  {
    if IsAnswer(l) {
      ProceedKeepsEffort(WithStream(s, l), NextPhase(s, l));
    }
  }

  lemma ProceedKeepsAcks(s: State, phase: Phase)
    requires AckInv(s) && s.publisher.Busy?
    requires phase.Done? && phase.outcome.Ok? ==> (|s.handled|, phase.outcome.value) in s.acknowledged
    ensures AckInv(Proceed(s, phase))
  {
  }

  lemma ServeKeepsAcks(s: State, i: nat)
    requires AckInv(s) && i < |s.network| && WasSent(s.sent, s.network[i])
    ensures AckInv(ServeOne(s, i))
  {
  }

  lemma AckKept(codec: Codec, s: State, l: Label)
    requires PublisherInv(codec, s) && WireInv(s) && AckInv(s) && Enabled(s, l)
    ensures AckInv(Apply(codec, s, l))
  {
    if IsAnswer(l) {
      ProceedKeepsAcks(WithStream(s, l), NextPhase(s, l));
    } else if l.Serve? {
      assert Wire(s)[|StoredOf(s)| + l.index] == s.network[l.index];
      ServeKeepsAcks(s, l.index);
    }
  }

  lemma {:induction false} WithoutMembers(entries: seq<Entry>, subject: string)
    ensures forall e :: e in Without(entries, subject) <==> e in entries && e.request.subject != subject
  {
    if entries != [] {
      var front, last := entries[..|entries| - 1], entries[|entries| - 1];
      WithoutMembers(front, subject);
      assert entries == front + [last];
    }
  }

  lemma EntriesOfFront(stream: Stream, entries: seq<Entry>)
    requires EntriesInv(stream, entries) && entries != []
    ensures var front, last := entries[..|entries| - 1], entries[|entries| - 1];
            && EntriesInv(stream, front) && EntryOf(stream, last)
            && forall e | e in front :: e.sequence < last.sequence && e.request.subject != last.request.subject
  {
  }

  lemma OneMoreEntry(stream: Stream, entries: seq<Entry>, last: Entry)
    requires EntriesInv(stream, entries) && EntryOf(stream, last)
    requires forall e | e in entries :: e.sequence < last.sequence && e.request.subject != last.request.subject
    ensures EntriesInv(stream, entries + [last])
  {
  }

  lemma {:induction false} WithoutKeeps(stream: Stream, entries: seq<Entry>, subject: string)
    requires EntriesInv(stream, entries)
    ensures EntriesInv(stream, Without(entries, subject))
  {
    if entries != [] {
      var front, last := entries[..|entries| - 1], entries[|entries| - 1];
      EntriesOfFront(stream, entries);
      WithoutKeeps(stream, front, subject);
      WithoutMembers(front, subject);
      if last.request.subject != subject {
        OneMoreEntry(stream, Without(front, subject), last);
      }
    }
  }

  /** What was stored stays the record of the entries when more is stored. */
  lemma EntriesOfLonger(stream: Stream, longer: Stream, entries: seq<Entry>)
    requires EntriesInv(stream, entries) && stream.stored <= longer.stored
    ensures EntriesInv(longer, entries)
  {
  }

  lemma StoreKeepsEntries(stream: Stream, r: Request)
    requires EntriesInv(stream, stream.entries)
    ensures EntriesInv(Store(stream, r), Store(stream, r).entries)
  {
    var kept, t := Without(stream.entries, r.subject), Store(stream, r);
    WithoutKeeps(stream, stream.entries, r.subject);
    WithoutMembers(stream.entries, r.subject);
    forall e | e in kept ensures e.sequence < |t.stored| && e.request.subject != r.subject {
      assert exists i :: 0 <= i < |kept| && kept[i] == e;
    }
    EntriesOfLonger(stream, t, kept);
    OneMoreEntry(t, kept, Entry(|t.stored|, r));
  }

  lemma EvictKeepsEntries(stream: Stream)
    requires EntriesInv(stream, stream.entries) && stream.entries != []
    ensures var rest := stream.entries[1..]; EntriesInv(stream.(entries := rest), rest)
  {
  }

  lemma StreamKept(codec: Codec, s: State, l: Label)
    requires StreamInv(s) && Enabled(s, l)
    ensures StreamInv(Apply(codec, s, l))
  {
    if l.Serve? && s.stream.Some? {
      StoreKeepsEntries(s.stream.value, s.network[l.index]);
    } else if l.Evict? {
      EvictKeepsEntries(s.stream.value);
    }
  }

  lemma DeliverKeepsConsumer(s: State, e: Entry)
    requires WireInv(s) && ConsumerInv(s) && s.consumer.Some? && s.consumer.value <= e.sequence
    requires EntryOf(s.stream.value, e)
    ensures ConsumerInv(s.(consumer := Some(e.sequence), delivered := s.delivered + [e]))
  {
    assert Wire(s)[e.sequence - 1] == e.request;
  }

  /** What is delivered next was stored no earlier than what was delivered before. */
  lemma DeliverKeepsOrder(s: State, e: Entry, d: Entry)
    requires OrderInv(s) && ConsumerInv(s) && s.consumer.Some? && s.consumer.value <= e.sequence
    requires EntryOf(s.stream.value, e)
    requires d in s.delivered
    ensures d.request.id <= e.request.id
  {
    assert EntryOf(s.stream.value, d) && d.sequence <= e.sequence;
    assert Wire(s)[d.sequence - 1] == d.request && Wire(s)[e.sequence - 1] == e.request;
  }

  /** More sent and more stored, nothing more delivered, and the consumer as it was or gone. */
  ghost predicate Grown(s: State, t: State) {
    && t.delivered == s.delivered && s.sent <= t.sent
    && (t.consumer.Some? ==>
          && t.consumer == s.consumer && s.stream.Some? && t.stream.Some?
          && s.stream.value.stored <= t.stream.value.stored)
  }

  /** That takes nothing from what was delivered. */
  lemma GrowthKeepsConsumer(s: State, t: State)
    requires ConsumerInv(s) && Grown(s, t)
    ensures ConsumerInv(t)
  {
  }

  lemma AnswerGrows(s: State, phase: Phase)
    requires s.publisher.Busy? && (s.consumer.Some? ==> s.stream.Some?)
    ensures Grown(s, Proceed(s, phase))
  {
  }

  lemma ServeGrows(s: State, i: nat)
    requires i < |s.network| && (s.consumer.Some? ==> s.stream.Some?)
    ensures Grown(s, ServeOne(s, i))
  {
  }

  lemma StepsGrow(codec: Codec, s: State, l: Label)
    requires Enabled(s, l) && !l.Deliver? && !l.Attach?
    requires s.consumer.Some? ==> s.stream.Some?
    ensures Grown(s, Apply(codec, s, l))
  {
    if IsAnswer(l) {
      AnswerGrows(WithStream(s, l), NextPhase(s, l));
    } else if l.Serve? {
      ServeGrows(s, l.index);
    } else if l.Take? {
      assert Start(codec, s.(buffer := s.buffer[1..]), s.buffer[0]).sent == s.sent;
    }
  }

  lemma ConsumerKept(codec: Codec, s: State, l: Label)
    requires WireInv(s) && StreamInv(s) && ConsumerInv(s) && Enabled(s, l)
    ensures ConsumerInv(Apply(codec, s, l))
  {
    match l {
      case Deliver(i) => DeliverKeepsConsumer(s, s.stream.value.entries[i]);
      case Attach(_) => assert Apply(codec, s, l).delivered == [];
      case _ =>
        StepsGrow(codec, s, l);
        GrowthKeepsConsumer(s, Apply(codec, s, l));
    }
  }

  lemma OrderKept(codec: Codec, s: State, l: Label)
    requires WireInv(s) && StreamInv(s) && ConsumerInv(s) && OrderInv(s) && Enabled(s, l) && !Overtakes(l)
    ensures OrderInv(Apply(codec, s, l))
  {
    WireKept(codec, s, l);
    match l {
      case Deliver(i) =>
        var e := s.stream.value.entries[i];
        forall d | d in s.delivered ensures d.request.id <= e.request.id {
          DeliverKeepsOrder(s, e, d);
        }
      case Attach(_) => assert Apply(codec, s, l).delivered == [];
      case _ => StepsGrow(codec, s, l);
    }
  }

  lemma InvKept(codec: Codec, s: State, l: Label)
    requires Inv(codec, s) && Enabled(s, l)
    ensures Inv(codec, Apply(codec, s, l))
  {
    ChannelKept(codec, s, l);
    PublisherKept(codec, s, l);
    SentKept(codec, s, l);
    WireKept(codec, s, l);
    EffortKept(codec, s, l);
    AckKept(codec, s, l);
    StreamKept(codec, s, l);
    ConsumerKept(codec, s, l);
  }

  lemma {:induction false} EveryRunKeepsInv(codec: Codec, run: seq<Label>)
    requires Exec(codec, run).Some?
    ensures Inv(codec, Exec(codec, run).value)
  {
    if run != [] {
      var before := run[..|run| - 1];
      EveryRunKeepsInv(codec, before);
      InvKept(codec, Exec(codec, before).value, run[|run| - 1]);
    }
  }

  /** Served in order, the wire and the deliveries stand in sending order after every interleaving. */
  lemma {:induction false} EveryOrderedRunKeepsOrder(codec: Codec, run: seq<Label>)
    requires Exec(codec, run).Some? && InOrder(run)
    ensures OrderInv(Exec(codec, run).value)
  {
    if run != [] {
      var before := run[..|run| - 1];
      EveryOrderedRunKeepsOrder(codec, before);
      EveryRunKeepsInv(codec, before);
      OrderKept(codec, Exec(codec, before).value, run[|run| - 1]);
    }
  }
}
