/**
 * apis/events/src/mbus_nats.rs: the retry loops of the message bus client.
 *
 * The server is an arbitrary function from the position of a request in the client's
 * log to an answer, so a property of every `Answers` is a property against any server.
 */
module MbusNats {
  import opened Wrappers
  import opened Events
  import opened Retry

  datatype PublishReply = Ack(sequence: nat) | TimedOut | StreamNotFound | OtherError

  /** `publish` answers a publish request, `ok` any other request. */
  datatype Answer = Answer(publish: PublishReply, ok: bool)

  type Answers = nat -> Answer

  datatype Action =
    | PublishRequest(subject: string, payload: Bytes)
    | CreateStream
    | GetStream
    | GetConsumer
    | GetMessages
    | Sleep(seconds: nat)

  datatype PublishError =
    | InvalidMessageId
    | SerializeError
    | PublishFailed(retries: nat, kind: PublishReply)
    | CreateStreamError

  type Outcome = Result<nat, PublishError>

  // ---- what the loops do, as functions of the answers ----

  /** `get_stream` and `get_or_create_stream`: one request an attempt, a sleep between attempts. */
  function RequestRun(answers: Answers, at: nat, tries: nat, o: BackoffOptions, request: Action): (bool, seq<Action>)
    requires tries <= o.maxRetries
    decreases o.maxRetries - tries, at
  {
    if answers(at).ok then (true, [request])
    else if tries == o.maxRetries then (false, [request])
    else
      var (ok, rest) := RequestRun(answers, at + 2, tries + 1, o, request);
      (ok, [request] + [Sleep(Delay(o, tries + 1))] + rest)
  }

  /** The requests of one attempt to get the messages of a consumer. */
  function ConsumerRequests(answers: Answers, at: nat): seq<Action> {
    if answers(at).ok then [GetConsumer, GetMessages] else [GetConsumer]
  }

  /** `create_consumer_and_get_messages`: two requests an attempt, the second only after the first. */
  function ConsumerRun(answers: Answers, at: nat, tries: nat, o: BackoffOptions): (bool, seq<Action>)
    requires tries <= o.maxRetries
    decreases o.maxRetries - tries, at
  {
    var requests := ConsumerRequests(answers, at);
    if answers(at).ok && answers(at + 1).ok then (true, requests)
    else if tries == o.maxRetries then (false, requests)
    else
      var (ok, rest) := ConsumerRun(answers, at + |requests| + 1, tries + 1, o);
      (ok, requests + [Sleep(Delay(o, tries + 1))] + rest)
  }

  /** What `publish` does after a failed request and before the next: nothing, a stream creation, or a sleep. */
  function Between(answers: Answers, at: nat, tries: nat, reply: PublishReply, o: BackoffOptions, inner: BackoffOptions)
    : (Option<PublishError>, seq<Action>)
  {
    if reply.TimedOut? then (None, [])
    else if reply.StreamNotFound? then
      var (ok, creation) := RequestRun(answers, at, 0, inner, CreateStream);
      (if ok then None else Some(CreateStreamError), creation)
    else (None, [Sleep(Delay(o, tries + 1))])
  }

  /** The loop of `publish`, with `o` its own options and `inner` those of the stream creation. */
  function PublishRun(answers: Answers, at: nat, tries: nat, o: BackoffOptions, inner: BackoffOptions, request: Action)
    : (Outcome, seq<Action>)
    requires tries <= o.maxRetries
    decreases o.maxRetries - tries, at
  {
    var reply := answers(at).publish;
    if reply.Ack? then (Ok(reply.sequence), [request])
    else if tries == o.maxRetries then (Err(PublishFailed(o.maxRetries, reply)), [request])
    else
      var (error, between) := Between(answers, at + 1, tries, reply, o, inner);
      if error.Some? then (Err(error.value), [request] + between)
      else
        var (r, rest) := PublishRun(answers, at + 1 + |between|, tries + 1, o, inner, request);
        (r, [request] + between + rest)
  }

  /** `publish` of one message; nothing is sent for a message without a subject or payload. */
  function PublishMessage(codec: Codec, answers: Answers, at: nat, m: EventMessage): (Outcome, seq<Action>) {
    match Subject(m)
    case None => (Err(InvalidMessageId), [])
    case Some(subject) =>
      match codec.encode(m)
      case None => (Err(SerializeError), [])
      case Some(payload) =>
        PublishRun(answers, at, 0, PUBLISH_OPTIONS, DEFAULT_OPTIONS, PublishRequest(subject, payload))
  }

  /** One more attempt of a request loop, unfolded. */
  lemma RequestUnfolds(answers: Answers, at: nat, tries: nat, o: BackoffOptions, request: Action)
    requires tries < o.maxRetries && !answers(at).ok
    ensures RequestRun(answers, at, tries, o, request)
            == (RequestRun(answers, at + 2, tries + 1, o, request).0,
                [request] + [Sleep(Delay(o, tries + 1))] + RequestRun(answers, at + 2, tries + 1, o, request).1)
  {
  }

  lemma RequestEnds(answers: Answers, at: nat, tries: nat, o: BackoffOptions, request: Action)
    requires tries <= o.maxRetries && (answers(at).ok || tries == o.maxRetries)
    ensures RequestRun(answers, at, tries, o, request) == (answers(at).ok, [request])
  {
  }

  lemma ConsumerEnds(answers: Answers, at: nat, tries: nat, o: BackoffOptions)
    requires tries <= o.maxRetries && ((answers(at).ok && answers(at + 1).ok) || tries == o.maxRetries)
    ensures ConsumerRun(answers, at, tries, o) == (answers(at).ok && answers(at + 1).ok, ConsumerRequests(answers, at))
  {
  }

  lemma ConsumerUnfolds(answers: Answers, at: nat, tries: nat, o: BackoffOptions)
    requires tries < o.maxRetries && !(answers(at).ok && answers(at + 1).ok)
    ensures var requests := ConsumerRequests(answers, at);
            var run := ConsumerRun(answers, at + |requests| + 1, tries + 1, o);
            ConsumerRun(answers, at, tries, o) == (run.0, requests + [Sleep(Delay(o, tries + 1))] + run.1)
  {
  }

  // ---- the same loops one request at a time ----

  /** Where `publish` stands between two requests. */
  datatype Phase =
    | Publishing(tries: nat)
    | Creating(tries: nat, createTries: nat)
    | Done(outcome: Outcome)
  {
    ghost predicate Within(o: BackoffOptions, inner: BackoffOptions) {
      match this
      case Publishing(t) => t <= o.maxRetries
      case Creating(t, c) => t < o.maxRetries && c <= inner.maxRetries
      case Done(_) => true
    }
  }

  /** The effect of one answer: the phase after it, and the sleep before the next request. */
  function AfterReply(tries: nat, reply: PublishReply, o: BackoffOptions): (Phase, seq<Action>) {
    if reply.Ack? then (Done(Ok(reply.sequence)), [])
    else if tries == o.maxRetries then (Done(Err(PublishFailed(o.maxRetries, reply))), [])
    else if reply.TimedOut? then (Publishing(tries + 1), [])
    else if reply.StreamNotFound? then (Creating(tries, 0), [])
    else (Publishing(tries + 1), [Sleep(Delay(o, tries + 1))])
  }

  function AfterCreate(tries: nat, createTries: nat, ok: bool, inner: BackoffOptions): (Phase, seq<Action>) {
    if ok then (Publishing(tries + 1), [])
    else if createTries == inner.maxRetries then (Done(Err(CreateStreamError)), [])
    else (Creating(tries, createTries + 1), [Sleep(Delay(inner, createTries + 1))])
  }

  /** From a phase to the end, one request after the other. */
  function Path(answers: Answers, at: nat, phase: Phase, o: BackoffOptions, inner: BackoffOptions, request: Action)
    : (Outcome, seq<Action>)
    requires phase.Within(o, inner)
    decreases match phase
              case Publishing(t) => o.maxRetries - t
              case Creating(t, _) => o.maxRetries - t - 1
              case Done(_) => 0,
              match phase
              case Publishing(t) => 0
              case Creating(_, c) => 1 + inner.maxRetries - c
              case Done(_) => 0
  {
    match phase
    case Done(outcome) => (outcome, [])
    case Publishing(t) =>
      var (next, pause) := AfterReply(t, answers(at).publish, o);
      if next.Done? then (next.outcome, [request])
      else
        var (r, rest) := Path(answers, at + 1 + |pause|, next, o, inner, request);
        (r, [request] + pause + rest)
    case Creating(t, c) =>
      var (next, pause) := AfterCreate(t, c, answers(at).ok, inner);
      if next.Done? then (next.outcome, [CreateStream])
      else
        var (r, rest) := Path(answers, at + 1 + |pause|, next, o, inner, request);
        (r, [CreateStream] + pause + rest)
  }

  /** The first step of a path from a publish request. */
  lemma PathOfRequest(answers: Answers, at: nat, tries: nat, o: BackoffOptions, inner: BackoffOptions, request: Action)
    requires tries <= o.maxRetries
    ensures var (next, pause) := AfterReply(tries, answers(at).publish, o);
            Path(answers, at, Publishing(tries), o, inner, request)
            == if next.Done? then (next.outcome, [request])
               else
                 var (r, rest) := Path(answers, at + 1 + |pause|, next, o, inner, request);
                 (r, [request] + pause + rest)
  {
  }

  /** The first step of a path from a stream creation. */
  lemma PathOfCreation(
      answers: Answers, at: nat, tries: nat, createTries: nat, o: BackoffOptions, inner: BackoffOptions,
      request: Action)
    requires tries < o.maxRetries && createTries <= inner.maxRetries
    ensures var (next, pause) := AfterCreate(tries, createTries, answers(at).ok, inner);
            Path(answers, at, Creating(tries, createTries), o, inner, request)
            == if next.Done? then (next.outcome, [CreateStream])
               else
                 var (r, rest) := Path(answers, at + 1 + |pause|, next, o, inner, request);
                 (r, [CreateStream] + pause + rest)
  {
  }

  /** Taken one request at a time, the nested loops do exactly what `PublishRun` says. */
  lemma {:induction false} PathIsPublishRun(
      answers: Answers, at: nat, tries: nat, o: BackoffOptions, inner: BackoffOptions, request: Action)
    requires tries <= o.maxRetries
    ensures Path(answers, at, Publishing(tries), o, inner, request)
            == PublishRun(answers, at, tries, o, inner, request)
    decreases o.maxRetries - tries, 0
  {
    hide Path, PublishRun, RequestRun;
    PathOfRequest(answers, at, tries, o, inner, request);
    var reply := answers(at).publish;
    if reply.Ack? || tries == o.maxRetries {
      LastRound(answers, at, tries, o, inner, request);
    } else {
      PublishUnfolds(answers, at, tries, o, inner, request);
      if reply.StreamNotFound? {
        PathThroughCreation(answers, at + 1, tries, 0, o, inner, request);
        var creation := RequestRun(answers, at + 1, 0, inner, CreateStream).1;
        Regroup([request], [], creation, PublishRun(answers, at + 1 + |creation|, tries + 1, o, inner, request).1);
      } else {
        PathIsPublishRun(answers, if reply.TimedOut? then at + 1 else at + 2, tries + 1, o, inner, request);
      }
    }
  }

  lemma {:induction false} PathThroughCreation(
      answers: Answers, at: nat, tries: nat, createTries: nat, o: BackoffOptions, inner: BackoffOptions,
      request: Action)
    requires tries < o.maxRetries && createTries <= inner.maxRetries
    ensures var (ok, creation) := RequestRun(answers, at, createTries, inner, CreateStream);
            Path(answers, at, Creating(tries, createTries), o, inner, request)
            == if !ok then (Err(CreateStreamError), creation)
               else
                 var (r, rest) := PublishRun(answers, at + |creation|, tries + 1, o, inner, request);
                 (r, creation + rest)
    decreases o.maxRetries - tries - 1, 1 + inner.maxRetries - createTries
  {
    hide Path, PublishRun, RequestRun;
    PathOfCreation(answers, at, tries, createTries, o, inner, request);
    if answers(at).ok || createTries == inner.maxRetries {
      RequestEnds(answers, at, createTries, inner, CreateStream);
      if answers(at).ok {
        PathIsPublishRun(answers, at + 1, tries + 1, o, inner, request);
        assert [CreateStream] + [] == [CreateStream];
      }
    } else {
      PathThroughCreation(answers, at + 2, tries, createTries + 1, o, inner, request);
      RequestUnfolds(answers, at, createTries, inner, CreateStream);
      var creation := RequestRun(answers, at + 2, createTries + 1, inner, CreateStream).1;
      Regroup([CreateStream], [Sleep(Delay(inner, createTries + 1))], creation,
              PublishRun(answers, at + 2 + |creation|, tries + 1, o, inner, request).1);
    }
  }

  lemma Regroup(a: seq<Action>, b: seq<Action>, c: seq<Action>, d: seq<Action>)
    ensures a + b + (c + d) == a + b + c + d
    ensures a + [] == a
  {
  }

  // ---- how much work a run can be ----

  datatype Measure = Publishes | Creates | Slept | Lookups | ConsumerAsks

  function Cost(what: Measure, a: Action): nat {
    match a
    case PublishRequest(_, _) => if what.Publishes? then 1 else 0
    case CreateStream => if what.Creates? then 1 else 0
    case Sleep(s) => if what.Slept? then s else 0
    case GetStream => if what.Lookups? then 1 else 0
    case GetConsumer => if what.ConsumerAsks? then 1 else 0
    case GetMessages => if what.ConsumerAsks? then 1 else 0
  }

  function Effort(what: Measure, trace: seq<Action>): nat {
    if trace == [] then 0 else Cost(what, trace[0]) + Effort(what, trace[1..])
  }

  lemma {:induction false} EffortAdds(what: Measure, a: seq<Action>, b: seq<Action>)
    ensures Effort(what, a + b) == Effort(what, a) + Effort(what, b)
  {
    if a == [] {
      assert a + b == b;
    } else {
      EffortAdds(what, a[1..], b);
      assert (a + b)[1..] == a[1..] + b;
    }
  }

  lemma EffortOfOne(what: Measure, a: Action)
    ensures Effort(what, [a]) == Cost(what, a)
  {
  }

  /** What one entry counts for; with `EffortAdds` this fixes every effort. */
  lemma EffortOfEach(a: Action)
    ensures Effort(Publishes, [a]) == if a.PublishRequest? then 1 else 0
    ensures Effort(Creates, [a]) == if a.CreateStream? then 1 else 0
    ensures Effort(Slept, [a]) == if a.Sleep? then a.seconds else 0
    ensures Effort(Lookups, [a]) == if a.GetStream? then 1 else 0
    ensures Effort(ConsumerAsks, [a]) == if a.GetConsumer? || a.GetMessages? then 1 else 0
  {
  }

  /** A request, what follows it, and the rest. */
  lemma EffortOfRound(what: Measure, request: Action, between: seq<Action>, rest: seq<Action>)
    ensures Effort(what, [request] + between) == Cost(what, request) + Effort(what, between)
    ensures Effort(what, [request] + between + rest) == Cost(what, request) + Effort(what, between) + Effort(what, rest)
  {
    EffortOfOne(what, request);
    EffortAdds(what, [request], between);
    EffortAdds(what, [request] + between, rest);
  }

  /** The most one whole creation loop can cost. */
  function CreationCap(what: Measure, o: BackoffOptions, tries: nat): nat
    requires tries <= o.maxRetries
  {
    match what
    case Creates => o.maxRetries - tries + 1
    case Slept => TotalDelay(o, tries, o.maxRetries)
    case _ => 0
  }

  /** One creation loop: at most `maxRetries + 1` requests and one pass through the schedule. */
  lemma {:induction false} CreationEffort(what: Measure, answers: Answers, at: nat, tries: nat, o: BackoffOptions)
    requires tries <= o.maxRetries
    ensures Effort(what, RequestRun(answers, at, tries, o, CreateStream).1) <= CreationCap(what, o, tries)
    decreases o.maxRetries - tries
  {
    EffortOfOne(what, CreateStream);
    if !answers(at).ok && tries < o.maxRetries {
      var pause := Sleep(Delay(o, tries + 1));
      EffortOfOne(what, pause);
      CreationEffort(what, answers, at + 2, tries + 1, o);
      EffortOfRound(what, CreateStream, [pause], RequestRun(answers, at + 2, tries + 1, o, CreateStream).1);
    }
  }

  function Max(a: nat, b: nat): nat {
    if a >= b then a else b
  }

  /** The most `publish` can cost from its `done`-th retry on. */
  function PublishCap(what: Measure, o: BackoffOptions, inner: BackoffOptions, done: nat): nat
    requires done <= o.maxRetries
    decreases o.maxRetries - done
  {
    var ends := if what.Publishes? then 1 else 0;
    if done == o.maxRetries then ends
    else
      var pause := if what.Slept? then Delay(o, done + 1) else 0;
      ends + Max(pause, CreationCap(what, inner, 0)) + PublishCap(what, o, inner, done + 1)
  }

  lemma BetweenEffort(
      what: Measure, answers: Answers, at: nat, tries: nat, reply: PublishReply, o: BackoffOptions,
      inner: BackoffOptions)
    ensures Effort(what, Between(answers, at, tries, reply, o, inner).1)
            <= Max(if what.Slept? then Delay(o, tries + 1) else 0, CreationCap(what, inner, 0))
  {
    EffortOfOne(what, Sleep(Delay(o, tries + 1)));
    CreationEffort(what, answers, at, 0, inner);
  }

  /** One more round of `publish`, unfolded. */
  lemma PublishUnfolds(answers: Answers, at: nat, tries: nat, o: BackoffOptions, inner: BackoffOptions, request: Action)
    requires tries < o.maxRetries && !answers(at).publish.Ack?
    ensures var (error, between) := Between(answers, at + 1, tries, answers(at).publish, o, inner);
            var rest := PublishRun(answers, at + 1 + |between|, tries + 1, o, inner, request);
            PublishRun(answers, at, tries, o, inner, request)
            == if error.Some? then (Err(error.value), [request] + between) else (rest.0, [request] + between + rest.1)
  {
  }

  /** A failed request and what follows it move from the rest of the trace to the log. */
  lemma PublishRound(
      answers: Answers, log: seq<Action>, tries: nat, o: BackoffOptions, inner: BackoffOptions, request: Action,
      whole: seq<Action>)
    requires tries < o.maxRetries && !answers(|log|).publish.Ack?
    requires log + PublishRun(answers, |log|, tries, o, inner, request).1 == whole
    ensures var result := PublishRun(answers, |log|, tries, o, inner, request).0;
            var (error, between) := Between(answers, |log| + 1, tries, answers(|log|).publish, o, inner);
            var after := log + [request] + between;
            if error.Some? then result == Err(error.value) && after == whole
            else
              && result == PublishRun(answers, |after|, tries + 1, o, inner, request).0
              && after + PublishRun(answers, |after|, tries + 1, o, inner, request).1 == whole
  {
  }

  lemma CapUnfolds(what: Measure, o: BackoffOptions, inner: BackoffOptions, done: nat)
    requires done < o.maxRetries
    ensures PublishCap(what, o, inner, done)
            == (if what.Publishes? then 1 else 0)
               + Max(if what.Slept? then Delay(o, done + 1) else 0, CreationCap(what, inner, 0))
               + PublishCap(what, o, inner, done + 1)
  {
  }

  /** A failed round costs its request, what follows it, and the rest. */
  lemma RoundEffort(
      what: Measure, answers: Answers, at: nat, tries: nat, o: BackoffOptions, inner: BackoffOptions, request: Action)
    requires tries < o.maxRetries && !answers(at).publish.Ack?
    ensures var between := Between(answers, at + 1, tries, answers(at).publish, o, inner).1;
            Effort(what, PublishRun(answers, at, tries, o, inner, request).1)
            <= Cost(what, request) + Effort(what, between)
               + Effort(what, PublishRun(answers, at + 1 + |between|, tries + 1, o, inner, request).1)
  {
    var between := Between(answers, at + 1, tries, answers(at).publish, o, inner).1;
    PublishUnfolds(answers, at, tries, o, inner, request);
    EffortOfRound(what, request, between, PublishRun(answers, at + 1 + |between|, tries + 1, o, inner, request).1);
  }

  lemma LastRound(answers: Answers, at: nat, tries: nat, o: BackoffOptions, inner: BackoffOptions, request: Action)
    requires tries <= o.maxRetries && (answers(at).publish.Ack? || tries == o.maxRetries)
    ensures var reply := answers(at).publish;
            PublishRun(answers, at, tries, o, inner, request)
            == (if reply.Ack? then Ok(reply.sequence) else Err(PublishFailed(o.maxRetries, reply)), [request])
  {
  }

  lemma CapOfLast(what: Measure, o: BackoffOptions, inner: BackoffOptions, done: nat, request: Action)
    requires done <= o.maxRetries && request.PublishRequest?
    ensures Cost(what, request) <= PublishCap(what, o, inner, done)
    ensures done == o.maxRetries ==> Cost(what, request) == PublishCap(what, o, inner, done)
  {
  }

  /** Whatever the server answers, the nested loops end within these bounds. */
  lemma {:induction false} PublishEffort(
      what: Measure, answers: Answers, at: nat, tries: nat, o: BackoffOptions, inner: BackoffOptions, request: Action)
    requires tries <= o.maxRetries && request.PublishRequest?
    ensures Effort(what, PublishRun(answers, at, tries, o, inner, request).1) <= PublishCap(what, o, inner, tries)
    decreases o.maxRetries - tries
  {
    hide PublishRun, Effort, PublishCap;
    var reply := answers(at).publish;
    if reply.Ack? || tries == o.maxRetries {
      LastRound(answers, at, tries, o, inner, request);
      EffortOfOne(what, request);
      CapOfLast(what, o, inner, tries, request);
    } else {
      var between := Between(answers, at + 1, tries, reply, o, inner).1;
      RoundEffort(what, answers, at, tries, o, inner, request);
      BetweenEffort(what, answers, at + 1, tries, reply, o, inner);
      PublishEffort(what, answers, at + 1 + |between|, tries + 1, o, inner, request);
      CapUnfolds(what, o, inner, tries);
    }
  }

  /** The most one lookup loop can cost. */
  function LookupCap(what: Measure, o: BackoffOptions, tries: nat): nat
    requires tries <= o.maxRetries
  {
    match what
    case Lookups => o.maxRetries - tries + 1
    case Slept => TotalDelay(o, tries, o.maxRetries)
    case _ => 0
  }

  lemma {:induction false} LookupEffort(what: Measure, answers: Answers, at: nat, tries: nat, o: BackoffOptions)
    requires tries <= o.maxRetries
    ensures Effort(what, RequestRun(answers, at, tries, o, GetStream).1) <= LookupCap(what, o, tries)
    decreases o.maxRetries - tries
  {
    hide RequestRun, Effort;
    EffortOfOne(what, GetStream);
    if answers(at).ok || tries == o.maxRetries {
      RequestEnds(answers, at, tries, o, GetStream);
    } else {
      var pause := Sleep(Delay(o, tries + 1));
      EffortOfOne(what, pause);
      LookupEffort(what, answers, at + 2, tries + 1, o);
      RequestUnfolds(answers, at, tries, o, GetStream);
      EffortOfRound(what, GetStream, [pause], RequestRun(answers, at + 2, tries + 1, o, GetStream).1);
    }
  }

  lemma ConsumerRequestsEffort(what: Measure, answers: Answers, at: nat)
    ensures Effort(what, ConsumerRequests(answers, at)) <= if what.ConsumerAsks? then 2 else 0
  {
    EffortOfOne(what, GetConsumer);
    EffortOfOne(what, GetMessages);
    EffortAdds(what, [GetConsumer], [GetMessages]);
    assert [GetConsumer] + [GetMessages] == [GetConsumer, GetMessages];
  }

  /** A failed attempt costs its requests, its sleep and the rest. */
  lemma ConsumerRoundEffort(what: Measure, answers: Answers, at: nat, tries: nat, o: BackoffOptions)
    requires !(answers(at).ok && answers(at + 1).ok) && tries < o.maxRetries
    ensures var requests, pause := ConsumerRequests(answers, at), Sleep(Delay(o, tries + 1));
            Effort(what, ConsumerRun(answers, at, tries, o).1)
            == Effort(what, requests) + Cost(what, pause)
               + Effort(what, ConsumerRun(answers, at + |requests| + 1, tries + 1, o).1)
  {
    hide ConsumerRun, Effort;
    var requests, pause := ConsumerRequests(answers, at), Sleep(Delay(o, tries + 1));
    ConsumerUnfolds(answers, at, tries, o);
    EffortOfOne(what, pause);
    EffortAdds(what, requests, [pause]);
    EffortAdds(what, requests + [pause], ConsumerRun(answers, at + |requests| + 1, tries + 1, o).1);
  }

  /** The most one consumer loop can cost. */
  function ConsumerCap(what: Measure, o: BackoffOptions, tries: nat): nat
    requires tries <= o.maxRetries
  {
    match what
    case ConsumerAsks => 2 * (o.maxRetries - tries + 1)
    case Slept => TotalDelay(o, tries, o.maxRetries)
    case _ => 0
  }

  lemma {:induction false} ConsumerEffort(what: Measure, answers: Answers, at: nat, tries: nat, o: BackoffOptions)
    requires tries <= o.maxRetries
    ensures Effort(what, ConsumerRun(answers, at, tries, o).1) <= ConsumerCap(what, o, tries)
    decreases o.maxRetries - tries
  {
    hide ConsumerRun, Effort;
    ConsumerRequestsEffort(what, answers, at);
    if (answers(at).ok && answers(at + 1).ok) || tries == o.maxRetries {
      ConsumerEnds(answers, at, tries, o);
    } else {
      ConsumerRoundEffort(what, answers, at, tries, o);
      ConsumerEffort(what, answers, at + |ConsumerRequests(answers, at)| + 1, tries + 1, o);
    }
  }

  /** `subscribe`: the stream is looked up, then a consumer made on it. */
  function SubscribeRun(answers: Answers, at: nat): (bool, seq<Action>) {
    var (found, lookup) := RequestRun(answers, at, 0, DEFAULT_OPTIONS, GetStream);
    if !found then (false, lookup)
    else
      var (ok, rest) := ConsumerRun(answers, at + |lookup|, 0, DEFAULT_OPTIONS);
      (ok, lookup + rest)
  }

  lemma SubscribeAdds(what: Measure, answers: Answers, at: nat)
    ensures Effort(what, SubscribeRun(answers, at).1)
            <= LookupCap(what, DEFAULT_OPTIONS, 0) + ConsumerCap(what, DEFAULT_OPTIONS, 0)
  {
    hide RequestRun, ConsumerRun, TotalDelay, Effort;
    var lookup := RequestRun(answers, at, 0, DEFAULT_OPTIONS, GetStream).1;
    LookupEffort(what, answers, at, 0, DEFAULT_OPTIONS);
    ConsumerEffort(what, answers, at + |lookup|, 0, DEFAULT_OPTIONS);
    EffortAdds(what, lookup, ConsumerRun(answers, at + |lookup|, 0, DEFAULT_OPTIONS).1);
  }

  /** Subscribing ends within 11 lookups, 22 consumer requests and 142 seconds of sleep. */
  lemma SubscribeEffort(answers: Answers, at: nat)
    ensures var trace := SubscribeRun(answers, at).1;
            && Effort(Lookups, trace) <= 11
            && Effort(ConsumerAsks, trace) <= 22
            && Effort(Slept, trace) <= 142
  {
    hide SubscribeRun, TotalDelay, Effort;
    DefaultSchedule();
    SubscribeAdds(Lookups, answers, at);
    SubscribeAdds(ConsumerAsks, answers, at);
    SubscribeAdds(Slept, answers, at);
  }

  lemma {:induction false} DefaultCaps(done: nat)
    requires done <= 10
    ensures PublishCap(Publishes, PUBLISH_OPTIONS, DEFAULT_OPTIONS, done) == 11 - done
    ensures PublishCap(Creates, PUBLISH_OPTIONS, DEFAULT_OPTIONS, done) == 11 * (10 - done)
    ensures PublishCap(Slept, PUBLISH_OPTIONS, DEFAULT_OPTIONS, done) == 71 * (10 - done)
    decreases 10 - done
  {
    DefaultSchedule();
    if done < 10 {
      DefaultCaps(done + 1);
    }
  }

  /** The bounds of the shipped options: 11 publish requests, 110 creations, 710 seconds of sleep. */
  lemma PublishMessageEffort(codec: Codec, answers: Answers, at: nat, m: EventMessage)
    ensures var trace := PublishMessage(codec, answers, at, m).1;
            && Effort(Publishes, trace) <= 11
            && Effort(Creates, trace) <= 110
            && Effort(Slept, trace) <= 710
            && (Subject(m).None? || codec.encode(m).None? ==> trace == [])
  {
    if Subject(m).Some? && codec.encode(m).Some? {
      var request := PublishRequest(Subject(m).value, codec.encode(m).value);
      forall what: Measure
        ensures Effort(what, PublishRun(answers, at, 0, PUBLISH_OPTIONS, DEFAULT_OPTIONS, request).1)
                <= PublishCap(what, PUBLISH_OPTIONS, DEFAULT_OPTIONS, 0)
      {
        PublishEffort(what, answers, at, 0, PUBLISH_OPTIONS, DEFAULT_OPTIONS, request);
      }
      DefaultCaps(0);
    }
  }

  /** Every publish request of a run is the same request: subject and payload are fixed before the loop. */
  lemma {:induction false} OneRequestThroughout(
      answers: Answers, at: nat, tries: nat, o: BackoffOptions, inner: BackoffOptions, request: Action)
    requires tries <= o.maxRetries && request.PublishRequest?
    ensures forall a | a in PublishRun(answers, at, tries, o, inner, request).1 ::
              a == request || a.CreateStream? || a.Sleep?
    decreases o.maxRetries - tries
  {
    var reply := answers(at).publish;
    if !reply.Ack? && tries < o.maxRetries {
      var (error, between) := Between(answers, at + 1, tries, reply, o, inner);
      CreationRequests(answers, at + 1, 0, inner);
      OneRequestThroughout(answers, at + 1 + |between|, tries + 1, o, inner, request);
    }
  }

  lemma {:induction false} CreationRequests(answers: Answers, at: nat, tries: nat, o: BackoffOptions)
    requires tries <= o.maxRetries
    ensures forall a | a in RequestRun(answers, at, tries, o, CreateStream).1 :: a.CreateStream? || a.Sleep?
    decreases o.maxRetries - tries
  {
    if !answers(at).ok && tries < o.maxRetries {
      CreationRequests(answers, at + 2, tries + 1, o);
    }
  }

  // ---- the worst server: the bounds are reached ----

  /** The log entries of one round of `publish`: a request and a sleep, or a request and a whole creation loop. */
  function RoundLength(creating: bool, inner: BackoffOptions): nat {
    if creating then 2 * inner.maxRetries + 2 else 2
  }

  /**
   * The `n`-th answer counted from the round `tries`. No publish request is acknowledged. In the rounds
   * chosen by `creating` there is no stream, and only the last attempt to create one succeeds.
   */
  function WorstAnswer(creating: nat -> bool, o: BackoffOptions, inner: BackoffOptions, tries: nat, n: nat): Answer
    requires tries <= o.maxRetries
    decreases o.maxRetries - tries, n
  {
    var length := RoundLength(creating(tries), inner);
    if tries == o.maxRetries then Answer(OtherError, false)
    else if n < length then Answer(if creating(tries) then StreamNotFound else OtherError, n == length - 1)
    else WorstAnswer(creating, o, inner, tries + 1, n - length)
  }

  ghost predicate IsWorst(
      server: Answers, at: nat, creating: nat -> bool, o: BackoffOptions, inner: BackoffOptions, tries: nat)
    requires tries <= o.maxRetries
  {
    forall m: nat | at <= m :: server(m) == WorstAnswer(creating, o, inner, tries, m - at)
  }

  /** The most a round can cost after its request, were it to sleep. */
  function PauseCap(what: Measure, o: BackoffOptions, tries: nat): nat {
    if what.Slept? then Delay(o, tries + 1) else 0
  }

  /** `creating` chooses the dearer of the two in every round. */
  ghost predicate IsCostly(what: Measure, creating: nat -> bool, o: BackoffOptions, inner: BackoffOptions) {
    forall t: nat | t < o.maxRetries ::
      if creating(t) then PauseCap(what, o, t) <= CreationCap(what, inner, 0)
      else CreationCap(what, inner, 0) <= PauseCap(what, o, t)
  }

  lemma NextRoundIsWorst(
      server: Answers, at: nat, creating: nat -> bool, o: BackoffOptions, inner: BackoffOptions, tries: nat)
    requires tries < o.maxRetries && IsWorst(server, at, creating, o, inner, tries)
    ensures IsWorst(server, at + RoundLength(creating(tries), inner), creating, o, inner, tries + 1)
    ensures server(at).publish == if creating(tries) then StreamNotFound else OtherError
  {
  }

  /** Of the attempts of a creation loop starting here, only the last succeeds. */
  ghost predicate CreatesLast(server: Answers, start: nat, inner: BackoffOptions) {
    forall m: nat | start <= m <= start + 2 * inner.maxRetries :: server(m).ok <==> m == start + 2 * inner.maxRetries
  }

  lemma {:induction false} WorstCreation(
      what: Measure, server: Answers, start: nat, tries: nat, at: nat, inner: BackoffOptions)
    requires CreatesLast(server, start, inner) && tries <= inner.maxRetries && at == start + 2 * tries
    ensures var (ok, trace) := RequestRun(server, at, tries, inner, CreateStream);
            && ok && |trace| == 2 * (inner.maxRetries - tries) + 1
            && Effort(what, trace) == CreationCap(what, inner, tries)
    decreases inner.maxRetries - tries
  {
    hide RequestRun, Effort;
    EffortOfOne(what, CreateStream);
    if tries < inner.maxRetries {
      var pause := Sleep(Delay(inner, tries + 1));
      EffortOfOne(what, pause);
      WorstCreation(what, server, start, tries + 1, at + 2, inner);
      RequestUnfolds(server, at, tries, inner, CreateStream);
      EffortOfRound(what, CreateStream, [pause], RequestRun(server, at + 2, tries + 1, inner, CreateStream).1);
    } else {
      RequestEnds(server, at, tries, inner, CreateStream);
    }
  }

  lemma WorstBetween(
      what: Measure, server: Answers, at: nat, creating: nat -> bool, o: BackoffOptions, inner: BackoffOptions,
      tries: nat)
    returns (between: seq<Action>)
    requires tries < o.maxRetries && IsWorst(server, at, creating, o, inner, tries)
    ensures Between(server, at + 1, tries, server(at).publish, o, inner) == (None, between)
    ensures 1 + |between| == RoundLength(creating(tries), inner)
    ensures Effort(what, between) == if creating(tries) then CreationCap(what, inner, 0) else PauseCap(what, o, tries)
  {
    hide RequestRun, Effort, Delay;
    if creating(tries) {
      assert CreatesLast(server, at + 1, inner);
      WorstCreation(what, server, at + 1, 0, at + 1, inner);
      between := RequestRun(server, at + 1, 0, inner, CreateStream).1;
    } else {
      between := [Sleep(Delay(o, tries + 1))];
      EffortOfOne(what, between[0]);
    }
  }

  lemma WorstRound(
      what: Measure, server: Answers, at: nat, creating: nat -> bool, o: BackoffOptions, inner: BackoffOptions,
      tries: nat, request: Action)
    requires tries < o.maxRetries && IsWorst(server, at, creating, o, inner, tries)
    ensures Effort(what, PublishRun(server, at, tries, o, inner, request).1)
            == Cost(what, request) + (if creating(tries) then CreationCap(what, inner, 0) else PauseCap(what, o, tries))
               + var next := at + RoundLength(creating(tries), inner);
                 Effort(what, PublishRun(server, next, tries + 1, o, inner, request).1)
  {
    hide PublishRun, Effort, CreationCap, PauseCap, WorstAnswer, IsWorst;
    NextRoundIsWorst(server, at, creating, o, inner, tries);
    var between := WorstBetween(what, server, at, creating, o, inner, tries);
    var next := at + RoundLength(creating(tries), inner);
    PublishUnfolds(server, at, tries, o, inner, request);
    EffortOfRound(what, request, between, PublishRun(server, next, tries + 1, o, inner, request).1);
  }

  /** Against such a server `publish` costs exactly the cap, in the measure it is dear in. */
  lemma {:induction false} WorstPublish(
      what: Measure, server: Answers, at: nat, creating: nat -> bool, o: BackoffOptions, inner: BackoffOptions,
      tries: nat, request: Action)
    requires tries <= o.maxRetries && request.PublishRequest?
    requires IsWorst(server, at, creating, o, inner, tries) && IsCostly(what, creating, o, inner)
    ensures Effort(what, PublishRun(server, at, tries, o, inner, request).1) == PublishCap(what, o, inner, tries)
    decreases o.maxRetries - tries
  {
    hide PublishRun, PublishCap, Effort, Delay, CreationCap, WorstAnswer, IsWorst;
    if tries < o.maxRetries {
      var next := at + RoundLength(creating(tries), inner);
      WorstRound(what, server, at, creating, o, inner, tries, request);
      CapUnfolds(what, o, inner, tries);
      NextRoundIsWorst(server, at, creating, o, inner, tries);
      WorstPublish(what, server, next, creating, o, inner, tries + 1, request);
    } else {
      LastIsRefused(server, at, creating, o, inner);
      LastRound(server, at, tries, o, inner, request);
      EffortOfOne(what, request);
      CapOfLast(what, o, inner, tries, request);
    }
  }

  lemma LastIsRefused(server: Answers, at: nat, creating: nat -> bool, o: BackoffOptions, inner: BackoffOptions)
    requires IsWorst(server, at, creating, o, inner, o.maxRetries)
    ensures !server(at).publish.Ack?
  {
  }

  /** A server that answers so, for any choice of rounds. */
  lemma WorstServer(at: nat, creating: nat -> bool, o: BackoffOptions, inner: BackoffOptions) returns (server: Answers)
    ensures IsWorst(server, at, creating, o, inner, 0)
  {
    server := m => if m < at then Answer(OtherError, false) else WorstAnswer(creating, o, inner, 0, m - at);
  }

  /**
   * So no bound of `PublishEffort` can be lowered: for any options and any measure some server costs exactly
   * the cap.
   */
  lemma CapIsReached(
      what: Measure, at: nat, o: BackoffOptions, inner: BackoffOptions, request: Action) returns (server: Answers)
    requires request.PublishRequest?
    ensures Effort(what, PublishRun(server, at, 0, o, inner, request).1) == PublishCap(what, o, inner, 0)
  {
    hide PublishRun, PublishCap, Effort, PauseCap, CreationCap, WorstAnswer, IsWorst;
    var creating: nat -> bool := (t: nat) => PauseCap(what, o, t) <= CreationCap(what, inner, 0);
    server := WorstServer(at, creating, o, inner);
    WorstPublish(what, server, at, creating, o, inner, 0, request);
  }

  /** One server reaches the caps of all measures where no sleep is longer than a whole creation schedule. */
  lemma CapsReachedTogether(
      at: nat, o: BackoffOptions, inner: BackoffOptions, request: Action) returns (server: Answers)
    requires request.PublishRequest?
    requires forall t: nat | 0 < t <= o.maxRetries :: Delay(o, t) <= TotalDelay(inner, 0, inner.maxRetries)
    ensures forall what :: Effort(what, PublishRun(server, at, 0, o, inner, request).1) == PublishCap(what, o, inner, 0)
  {
    hide PublishRun, PublishCap, Effort, WorstAnswer, IsWorst, Delay, TotalDelay;
    var creating: nat -> bool := t => true;
    server := WorstServer(at, creating, o, inner);
    forall what ensures Effort(what, PublishRun(server, at, 0, o, inner, request).1) == PublishCap(what, o, inner, 0) {
      WorstPublish(what, server, at, creating, o, inner, 0, request);
    }
  }

  /** With the shipped options one server reaches all three bounds. */
  lemma BoundsAreReached(codec: Codec, m: EventMessage) returns (server: Answers)
    requires Subject(m).Some? && codec.encode(m).Some?
    ensures var trace := PublishMessage(codec, server, 0, m).1;
            Effort(Publishes, trace) == 11 && Effort(Creates, trace) == 110 && Effort(Slept, trace) == 710
  {
    hide PublishRun, PublishCap, Effort, TotalDelay;
    DefaultSchedule();
    DefaultCaps(0);
    var request := PublishRequest(Subject(m).value, codec.encode(m).value);
    server := CapsReachedTogether(0, PUBLISH_OPTIONS, DEFAULT_OPTIONS, request);
  }

  // ---- the client ----

  class NatsMessageBus {
    const answers: Answers
    const codec: Codec
    var log: seq<Action>

    constructor (answers: Answers, codec: Codec)
      ensures this.answers == answers && this.codec == codec && log == []
    {
      this.answers, this.codec, log := answers, codec, [];
    }

    method Send(request: Action) returns (answer: Answer)
      modifies this
      ensures log == old(log) + [request] && answer == answers(|old(log)|)
    {
      answer := answers(|log|);
      log := log + [request];
    }

    method BackoffWithOptions(tries: nat, options: BackoffOptions) returns (next: nat)
      requires tries < U32_MAX
      modifies this
      ensures next == tries + 1 && log == old(log) + [Sleep(Delay(options, next))]
    {
      next := tries + 1;
      SteppedIsProduct(options.initDelay, options.step, if next > options.cutoff then next - options.cutoff - 1 else 0);
      var backoff := if next <= options.cutoff then options.initDelay
                     else Min(options.initDelay + (next - options.cutoff - 1) * options.step, options.maxDelay);
      log := log + [Sleep(backoff)];
    }

    /** `get_stream` and `get_or_create_stream`, which differ only in the request. */
    method GetWithRetries(request: Action, retryOptions: Option<BackoffOptions>) returns (ok: bool)
      modifies this
      ensures var options := if retryOptions.Some? then retryOptions.value else DEFAULT_OPTIONS;
              var run := RequestRun(answers, |old(log)|, 0, options, request);
              ok == run.0 && log == old(log) + run.1
    {
      var options := if retryOptions.Some? then retryOptions.value else DEFAULT_OPTIONS;
      var tries := 0;
      ghost var (result, trace) := RequestRun(answers, |log|, 0, options, request);
      ghost var rest := trace;
      while true
        invariant tries <= options.maxRetries && RequestRun(answers, |log|, tries, options, request) == (result, rest)
        invariant log + rest == old(log) + trace
        decreases options.maxRetries - tries
      {
        ghost var before := log;
        var answer := Send(request);
        if answer.ok {
          return true;
        }
        if tries == options.maxRetries {
          return false;
        }
        tries := BackoffWithOptions(tries, options);
        ghost var round := [request] + [Sleep(Delay(options, tries))];
        assert log == before + round;
        ghost var next := RequestRun(answers, |log|, tries, options, request).1;
        Advance(old(log) + trace, before, round, rest, next);
        rest := next;
      }
    }

    method CreateConsumerAndGetMessages() returns (ok: bool)
      modifies this
      ensures var run := ConsumerRun(answers, |old(log)|, 0, DEFAULT_OPTIONS);
              ok == run.0 && log == old(log) + run.1
    {
      hide ConsumerRun, Delay;
      var options := DEFAULT_OPTIONS;
      var tries := 0;
      ghost var (result, trace) := ConsumerRun(answers, |log|, 0, options);
      ghost var rest := trace;
      while true
        invariant tries <= options.maxRetries && ConsumerRun(answers, |log|, tries, options) == (result, rest)
        invariant log + rest == old(log) + trace
        decreases options.maxRetries - tries
      {
        ghost var before, requests := log, ConsumerRequests(answers, |log|);
        if (answers(|log|).ok && answers(|log| + 1).ok) || tries == options.maxRetries {
          ConsumerEnds(answers, |log|, tries, options);
        } else {
          ConsumerUnfolds(answers, |log|, tries, options);
        }
        var consumer := Send(GetConsumer);
        if consumer.ok {
          var messages := Send(GetMessages);
          if messages.ok {
            return true;
          }
        }
        if tries == options.maxRetries {
          return false;
        }
        tries := BackoffWithOptions(tries, options);
        ghost var round := requests + [Sleep(Delay(options, tries))];
        assert log == before + round;
        ghost var next := ConsumerRun(answers, |log|, tries, options).1;
        Advance(old(log) + trace, before, round, rest, next);
        rest := next;
      }
    }

    method Subscribe() returns (ok: bool)
      modifies this
      ensures var run := SubscribeRun(answers, |old(log)|);
              ok == run.0 && log == old(log) + run.1
    {
      var found := GetWithRetries(GetStream, None);
      if !found {
        return false;
      }
      ok := CreateConsumerAndGetMessages();
    }

    /** Between a failed request and the next: nothing after a timeout, a stream creation, or a sleep. */
    method RecoverFrom(reply: PublishReply, tries: nat, options: BackoffOptions) returns (error: Option<PublishError>)
      requires tries < U32_MAX && !reply.Ack?
      modifies this
      ensures var run := Between(answers, |old(log)|, tries, reply, options, DEFAULT_OPTIONS);
              error == run.0 && log == old(log) + run.1
    {
      error := None;
      if reply.TimedOut? {
        assert log + [] == log;
      } else if reply.StreamNotFound? {
        var created := GetWithRetries(CreateStream, None);
        if !created {
          error := Some(CreateStreamError);
        }
      } else {
        var next := BackoffWithOptions(tries, options);
      }
    }

    method Publish(message: EventMessage) returns (r: Outcome)
      modifies this
      ensures var run := PublishMessage(codec, answers, |old(log)|, message);
              r == run.0 && log == old(log) + run.1
    {
      var options := PUBLISH_OPTIONS;
      var tries := 0;
      var subject := Subject(message);
      if subject.None? {
        return Err(InvalidMessageId);
      }
      var payload := codec.encode(message);
      if payload.None? {
        return Err(SerializeError);
      }
      var request := PublishRequest(subject.value, payload.value);
      ghost var (result, trace) := PublishRun(answers, |log|, 0, options, DEFAULT_OPTIONS, request);
      while true
        invariant tries <= options.maxRetries
        invariant PublishRun(answers, |log|, tries, options, DEFAULT_OPTIONS, request).0 == result
        invariant log + PublishRun(answers, |log|, tries, options, DEFAULT_OPTIONS, request).1 == old(log) + trace
        decreases options.maxRetries - tries
      {
        ghost var before := log;
        var answer := Send(request);
        var reply := answer.publish;
        if reply.Ack? {
          return Ok(reply.sequence);
        }
        if tries == options.maxRetries {
          return Err(PublishFailed(options.maxRetries, reply));
        }
        PublishRound(answers, before, tries, options, DEFAULT_OPTIONS, request, old(log) + trace);
        var error := RecoverFrom(reply, tries, options);
        if error.Some? {
          return Err(error.value);
        }
        tries := tries + 1;
      }
    }

    /** After one more round has been logged, the rest of the trace is what follows that round. */
    static lemma Advance(
        whole: seq<Action>, before: seq<Action>, round: seq<Action>, rest: seq<Action>, next: seq<Action>)
      requires before + rest == whole && rest == round + next
      ensures before + round + next == whole
    {
    }
  }
}
