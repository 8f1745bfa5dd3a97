/**
 * What stands in the log of the message bus client, entry by entry: which request follows which
 * answer, how long each sleep is, and what the outcome was. Entry `i` of a trace that began at
 * position `at` of the log got the answer `answers(at + i)`.
 */
module RequestTraces {
  import opened Wrappers
  import opened Events
  import opened Retry
  import opened MbusNats

  // ---- one request an attempt ----

  /** Requests and sleeps take turns. */
  ghost predicate TakesTurns(t: seq<Action>, tries: nat, o: BackoffOptions, request: Action) {
    forall i | 0 <= i < |t| :: t[i] == if i % 2 == 0 then request else Sleep(Delay(o, tries + i / 2 + 1))
  }

  /** All requests but the last were refused. */
  ghost predicate RefusedButLast(answers: Answers, at: nat, t: seq<Action>) {
    forall i | 0 <= i < |t| - 1 && i % 2 == 0 :: !answers(at + i).ok
  }

  lemma OneMoreTurn(answers: Answers, at: nat, rest: seq<Action>, tries: nat, o: BackoffOptions, request: Action)
    requires TakesTurns(rest, tries + 1, o, request) && RefusedButLast(answers, at + 2, rest) && !answers(at).ok
    ensures var t := [request] + [Sleep(Delay(o, tries + 1))] + rest;
            TakesTurns(t, tries, o, request) && RefusedButLast(answers, at, t)
  {
    hide Delay;
    var t := [request] + [Sleep(Delay(o, tries + 1))] + rest;
    forall i | 2 <= i < |t| ensures t[i] == if i % 2 == 0 then request else Sleep(Delay(o, tries + i / 2 + 1)) {
      assert t[i] == rest[i - 2] && (i - 2) % 2 == i % 2 && (i - 2) / 2 + 1 == i / 2;
    }
    forall i | 0 <= i < |t| - 1 && i % 2 == 0 ensures !answers(at + i).ok {
      assert i >= 2 ==> at + i == at + 2 + (i - 2) && (i - 2) % 2 == 0;
    }
  }

  /** The last request decides, and is refused only when no attempt is left. */
  lemma {:induction false} RequestTrace(answers: Answers, at: nat, tries: nat, o: BackoffOptions, request: Action)
    requires tries <= o.maxRetries
    ensures var (ok, t) := RequestRun(answers, at, tries, o, request);
            && TakesTurns(t, tries, o, request) && RefusedButLast(answers, at, t)
            && |t| % 2 == 1 && |t| <= 2 * (o.maxRetries - tries) + 1
            && ok == answers(at + |t| - 1).ok
            && (!ok ==> |t| == 2 * (o.maxRetries - tries) + 1)
    decreases o.maxRetries - tries
  {
    hide RequestRun, Delay, TakesTurns, RefusedButLast;
    if answers(at).ok || tries == o.maxRetries {
      RequestEnds(answers, at, tries, o, request);
      OnlyRequest(answers, at, tries, o, request);
    } else {
      RequestTrace(answers, at + 2, tries + 1, o, request);
      RequestUnfolds(answers, at, tries, o, request);
      OneMoreTurn(answers, at, RequestRun(answers, at + 2, tries + 1, o, request).1, tries, o, request);
    }
  }

  lemma OnlyRequest(answers: Answers, at: nat, tries: nat, o: BackoffOptions, request: Action)
    ensures TakesTurns([request], tries, o, request) && RefusedButLast(answers, at, [request])
  {
  }

  // ---- subscribing ----

  /** After a failed attempt: the end if it was the last, else the sleep of the schedule. */
  ghost predicate Fails(t: seq<Action>, i: nat, tries: nat, o: BackoffOptions)
    requires i < |t|
  {
    var failed := tries + multiset(t[..i + 1])[GetConsumer];
    if failed == o.maxRetries + 1 then i + 1 == |t|
    else failed > 0 && i + 1 < |t| && t[i + 1] == Sleep(Delay(o, failed))
  }

  /** A consumer is asked for its messages right after it was got; anything refused begins another attempt. */
  ghost predicate ConsumerStep(answers: Answers, at: nat, t: seq<Action>, i: nat, tries: nat, o: BackoffOptions)
    requires i < |t|
  {
    match t[i]
    case GetConsumer => if answers(at + i).ok then i + 1 < |t| && t[i + 1] == GetMessages else Fails(t, i, tries, o)
    case GetMessages =>
      && i > 0 && t[i - 1] == GetConsumer
      && if answers(at + i).ok then i + 1 == |t| else Fails(t, i, tries, o)
    case Sleep(_) => i > 0 && !t[i - 1].Sleep? && i + 1 < |t| && t[i + 1] == GetConsumer
    case _ => false
  }

  ghost predicate ConsumerSteps(answers: Answers, at: nat, t: seq<Action>, tries: nat, o: BackoffOptions) {
    forall i: nat | i < |t| :: ConsumerStep(answers, at, t, i, tries, o)
  }

  /** An attempt in front of a trace moves its steps, and counts. */
  lemma LaterConsumerStep(
      answers: Answers, at: nat, head: seq<Action>, rest: seq<Action>, i: nat, tries: nat, o: BackoffOptions)
    requires multiset(head)[GetConsumer] == 1 && i < |rest| && rest[0] == GetConsumer
    requires ConsumerStep(answers, at + |head|, rest, i, tries + 1, o)
    ensures ConsumerStep(answers, at, head + rest, |head| + i, tries, o)
  {
    var t := head + rest;
    assert t[..|head| + i + 1] == head + rest[..i + 1];
    assert i > 0 ==> t[|head| + i - 1] == rest[i - 1];
    assert i + 1 < |rest| ==> t[|head| + i + 1] == rest[i + 1];
  }

  lemma {:induction false} ConsumerTrace(answers: Answers, at: nat, tries: nat, o: BackoffOptions)
    requires tries <= o.maxRetries
    ensures var (ok, t) := ConsumerRun(answers, at, tries, o);
            && t != [] && t[0] == GetConsumer
            && ConsumerSteps(answers, at, t, tries, o)
            && (ok <==> t[|t| - 1] == GetMessages && answers(at + |t| - 1).ok)
    decreases o.maxRetries - tries
  {
    hide ConsumerRun, Delay, ConsumerStep;
    var requests := ConsumerRequests(answers, at);
    if (answers(at).ok && answers(at + 1).ok) || tries == o.maxRetries {
      ConsumerEnds(answers, at, tries, o);
      LastAttempt(answers, at, tries, o);
    } else {
      var head := requests + [Sleep(Delay(o, tries + 1))];
      var rest := ConsumerRun(answers, at + |head|, tries + 1, o).1;
      ConsumerUnfolds(answers, at, tries, o);
      ConsumerTrace(answers, at + |head|, tries + 1, o);
      FirstAttempt(answers, at, rest, tries, o);
      forall i: nat | |head| <= i < |head + rest| ensures ConsumerStep(answers, at, head + rest, i, tries, o) {
        LaterConsumerStep(answers, at, head, rest, i - |head|, tries, o);
      }
    }
  }

  lemma LastAttempt(answers: Answers, at: nat, tries: nat, o: BackoffOptions)
    requires tries <= o.maxRetries && ((answers(at).ok && answers(at + 1).ok) || tries == o.maxRetries)
    ensures var t := ConsumerRequests(answers, at); forall i: nat | i < |t| :: ConsumerStep(answers, at, t, i, tries, o)
  {
    var t := ConsumerRequests(answers, at);
    assert t[..1] == [GetConsumer] && t[..|t|] == t;
  }

  /** The steps of a failed attempt that is not the last. */
  lemma FirstAttempt(answers: Answers, at: nat, rest: seq<Action>, tries: nat, o: BackoffOptions)
    requires tries < o.maxRetries && !(answers(at).ok && answers(at + 1).ok) && rest != [] && rest[0] == GetConsumer
    ensures var head := ConsumerRequests(answers, at) + [Sleep(Delay(o, tries + 1))];
            && multiset(head)[GetConsumer] == 1
            && forall i: nat | i < |head| :: ConsumerStep(answers, at, head + rest, i, tries, o)
  {
    hide Delay;
    var head := ConsumerRequests(answers, at) + [Sleep(Delay(o, tries + 1))];
    var t := head + rest;
    assert t[..1] == [GetConsumer];
    if answers(at).ok {
      assert t[..2] == [GetConsumer, GetMessages];
    }
  }

  /**
   * `subscribe`, entry by entry: a loop of lookups, and after one that was answered a loop of attempts to get a
   * consumer and its messages. `k` is where the first loop ends.
   */
  lemma SubscribeTrace(answers: Answers, at: nat) returns (k: nat)
    ensures var (ok, t) := SubscribeRun(answers, at);
            && 0 < k <= |t| && k % 2 == 1
            && TakesTurns(t[..k], 0, DEFAULT_OPTIONS, GetStream) && RefusedButLast(answers, at, t[..k])
            && if !answers(at + k - 1).ok then !ok && k == |t| == 21
               else
                 && k < |t| && t[k] == GetConsumer
                 && ConsumerSteps(answers, at + k, t[k..], 0, DEFAULT_OPTIONS)
                 && (ok <==> t[|t| - 1] == GetMessages && answers(at + |t| - 1).ok)
  {
    hide RequestRun, ConsumerRun, TakesTurns, RefusedButLast, ConsumerSteps;
    var (found, lookup) := RequestRun(answers, at, 0, DEFAULT_OPTIONS, GetStream);
    RequestTrace(answers, at, 0, DEFAULT_OPTIONS, GetStream);
    k := |lookup|;
    if found {
      var rest := ConsumerRun(answers, at + k, 0, DEFAULT_OPTIONS).1;
      ConsumerTrace(answers, at + k, 0, DEFAULT_OPTIONS);
      assert (lookup + rest)[..k] == lookup && (lookup + rest)[k..] == rest;
    } else {
      assert lookup[..k] == lookup;
    }
  }

  /**
   * So it begins by looking up the stream, asks for a consumer only after a lookup that was answered, and
   * succeeds exactly when its last request, for the messages of a consumer just got, was answered.
   */
  lemma SubscribeAsks(answers: Answers, at: nat)
    ensures var (ok, t) := SubscribeRun(answers, at);
            && t != [] && t[0] == GetStream
            && (forall i | 0 <= i < |t| && (t[i] == GetConsumer || t[i] == GetMessages) ::
                  exists j | 0 <= j < i :: t[j] == GetStream && answers(at + j).ok)
            && (ok <==> |t| > 1 && t[|t| - 1] == GetMessages && answers(at + |t| - 1).ok
                        && t[|t| - 2] == GetConsumer && answers(at + |t| - 2).ok)
  {
    hide SubscribeRun, Delay;
    var (ok, t) := SubscribeRun(answers, at);
    var k := SubscribeTrace(answers, at);
    assert t[..k][0] == GetStream;
    forall i | 0 <= i < k ensures t[i] == t[..k][i] && t[i] != GetConsumer && t[i] != GetMessages {
    }
    if k < |t| {
      assert t[k - 1] == t[..k][k - 1] == GetStream && answers(at + (k - 1)).ok;
      var rest, n := t[k..], |t| - k;
      assert ConsumerStep(answers, at + k, rest, n - 1, 0, DEFAULT_OPTIONS);
      assert n > 1 ==> ConsumerStep(answers, at + k, rest, n - 2, 0, DEFAULT_OPTIONS);
    }
  }

  // ---- publishing ----

  /** The creation requests since the last publish request, up to entry `i`. */
  function CreationsSince(t: seq<Action>, i: nat): nat
    requires i < |t|
  {
    if t[i].PublishRequest? then 0
    else (if t[i].CreateStream? then 1 else 0) + if i == 0 then 0 else CreationsSince(t, i - 1)
  }

  /** What follows a publish request that failed, by its reply and the number of requests made. */
  function Next(reply: PublishReply, made: nat, o: BackoffOptions, request: Action): Action
    requires made > 0
  {
    match reply
    case TimedOut => request
    case StreamNotFound => CreateStream
    case _ => Sleep(Delay(o, made))
  }

  /**
   * What follows an entry. A publish request: nothing if it was acknowledged or was the last one allowed; else
   * the same request at once after a timeout, a creation where there is no stream, or the sleep of the schedule.
   * A creation: the publish request if it succeeded; else its own sleep, or nothing if it was the last one
   * allowed. A sleep: the request before it, again.
   */
  ghost predicate PublishStep(
      answers: Answers, at: nat, t: seq<Action>, i: nat, tries: nat, o: BackoffOptions, inner: BackoffOptions,
      request: Action)
    requires i < |t|
  {
    var last := i + 1 == |t|;
    match t[i]
    case PublishRequest(_, _) =>
      var made := tries + multiset(t[..i + 1])[request];
      var reply := answers(at + i).publish;
      && t[i] == request
      && if reply.Ack? || made == o.maxRetries + 1 then last
         else
           && !last && made > 0
           && t[i + 1] == Next(reply, made, o, request)
    case CreateStream =>
      var made := CreationsSince(t, i);
      if answers(at + i).ok then !last && t[i + 1] == request
      else if made == inner.maxRetries + 1 then last
      else !last && t[i + 1] == Sleep(Delay(inner, made))
    case Sleep(_) => i > 0 && !t[i - 1].Sleep? && !last && t[i + 1] == t[i - 1]
    case _ => false
  }

  ghost predicate PublishSteps(
      answers: Answers, at: nat, t: seq<Action>, tries: nat, o: BackoffOptions, inner: BackoffOptions, request: Action)
  {
    forall i: nat | i < |t| :: PublishStep(answers, at, t, i, tries, o, inner, request)
  }

  /** The outcome, by the last entry and its answer. */
  function OutcomeOf(answer: Answer, last: Action, o: BackoffOptions): Outcome {
    if last == CreateStream then Err(CreateStreamError)
    else if answer.publish.Ack? then Ok(answer.publish.sequence)
    else Err(PublishFailed(o.maxRetries, answer.publish))
  }

  lemma {:induction false} CreationsOfRest(head: seq<Action>, rest: seq<Action>, i: nat)
    requires i < |rest| && rest[0].PublishRequest?
    ensures CreationsSince(head + rest, |head| + i) == CreationsSince(rest, i)
  {
    if i > 0 {
      CreationsOfRest(head, rest, i - 1);
    }
  }

  /** A round in front of a trace moves its steps, and counts. */
  lemma LaterPublishStep(
      answers: Answers, at: nat, head: seq<Action>, rest: seq<Action>, i: nat, tries: nat, o: BackoffOptions,
      inner: BackoffOptions, request: Action)
    requires request.PublishRequest? && multiset(head)[request] == 1 && i < |rest| && rest[0] == request
    requires PublishStep(answers, at + |head|, rest, i, tries + 1, o, inner, request)
    ensures PublishStep(answers, at, head + rest, |head| + i, tries, o, inner, request)
  {
    hide Delay, CreationsSince;
    var t := head + rest;
    assert t[..|head| + i + 1] == head + rest[..i + 1];
    assert i > 0 ==> t[|head| + i - 1] == rest[i - 1];
    assert i + 1 < |rest| ==> t[|head| + i + 1] == rest[i + 1];
    CreationsOfRest(head, rest, i);
  }

  /** In a creation loop behind a publish request, every second entry is a creation. */
  lemma {:induction false} CreationsInLoop(
      t: seq<Action>, creation: seq<Action>, inner: BackoffOptions, c: nat)
    requires TakesTurns(creation, 0, inner, CreateStream) && c < |creation| < |t|
    requires t[0].PublishRequest? && forall i | 0 <= i < |creation| :: t[1 + i] == creation[i]
    ensures CreationsSince(t, 1 + c) == c / 2 + 1
  {
    hide Delay;
    assert t[1 + c] == creation[c];
    if c > 0 {
      CreationsInLoop(t, creation, inner, c - 1);
    }
  }

  /** A creation loop behind a publish request; `rest` follows if it succeeded. */
  ghost predicate IsLoop(
      answers: Answers, at: nat, creation: seq<Action>, rest: seq<Action>, inner: BackoffOptions, request: Action)
  {
    && TakesTurns(creation, 0, inner, CreateStream) && RefusedButLast(answers, at + 1, creation)
    && |creation| % 2 == 1 && |creation| <= 2 * inner.maxRetries + 1
    && if answers(at + |creation|).ok then rest != [] && rest[0] == request
       else rest == [] && |creation| == 2 * inner.maxRetries + 1
  }

  lemma LoopCreates(
      answers: Answers, at: nat, creation: seq<Action>, rest: seq<Action>, i: nat, tries: nat, o: BackoffOptions,
      inner: BackoffOptions, request: Action)
    requires request.PublishRequest? && IsLoop(answers, at, creation, rest, inner, request)
    requires 1 <= i <= |creation| && i % 2 == 1
    ensures PublishStep(answers, at, [request] + creation + rest, i, tries, o, inner, request)
  {
    hide Delay, CreationsSince;
    var t, c := [request] + creation + rest, i - 1;
    assert forall k | 0 <= k < |creation| :: t[1 + k] == creation[k];
    CreationsInLoop(t, creation, inner, c);
    assert t[i] == creation[c] == CreateStream && CreationsSince(t, i) == c / 2 + 1;
    if c + 1 < |creation| {
      assert t[i + 1] == creation[c + 1] == Sleep(Delay(inner, c / 2 + 1)) && !answers(at + 1 + c).ok;
    } else {
      assert at + i == at + |creation|;
    }
  }

  lemma LoopSleeps(
      answers: Answers, at: nat, creation: seq<Action>, rest: seq<Action>, i: nat, tries: nat, o: BackoffOptions,
      inner: BackoffOptions, request: Action)
    requires request.PublishRequest? && IsLoop(answers, at, creation, rest, inner, request)
    requires 1 <= i <= |creation| && i % 2 == 0
    ensures PublishStep(answers, at, [request] + creation + rest, i, tries, o, inner, request)
  {
    hide Delay, CreationsSince;
    var t := [request] + creation + rest;
    assert t[i - 1] == creation[i - 2] == CreateStream && t[i] == creation[i - 1] && t[i + 1] == creation[i];
  }

  /** The first step of a round, by the answer to its request. */
  lemma FirstPublishStep(
      answers: Answers, at: nat, t: seq<Action>, tries: nat, o: BackoffOptions, inner: BackoffOptions, request: Action)
    requires request.PublishRequest? && tries <= o.maxRetries && t != [] && t[0] == request
    requires var reply := answers(at).publish;
             if reply.Ack? || tries == o.maxRetries then |t| == 1
             else |t| > 1 && t[1] == Next(reply, tries + 1, o, request)
    ensures PublishStep(answers, at, t, 0, tries, o, inner, request)
  {
    assert t[..1] == [request];
  }

  /** Against any server, entry by entry: what `publish` does next, and its outcome. */
  lemma {:induction false} PublishTrace(
      answers: Answers, at: nat, tries: nat, o: BackoffOptions, inner: BackoffOptions, request: Action)
    requires tries <= o.maxRetries && request.PublishRequest?
    ensures var (r, t) := PublishRun(answers, at, tries, o, inner, request);
            && t != [] && t[0] == request
            && PublishSteps(answers, at, t, tries, o, inner, request)
            && r == OutcomeOf(answers(at + |t| - 1), t[|t| - 1], o)
    decreases o.maxRetries - tries
  {
    hide PublishRun, RequestRun, Delay, PublishStep;
    var reply := answers(at).publish;
    if reply.Ack? || tries == o.maxRetries {
      LastRound(answers, at, tries, o, inner, request);
      FirstPublishStep(answers, at, [request], tries, o, inner, request);
    } else {
      var (error, between) := Between(answers, at + 1, tries, reply, o, inner);
      var head := [request] + between;
      var rest := if error.Some? then [] else PublishRun(answers, at + |head|, tries + 1, o, inner, request).1;
      PublishUnfolds(answers, at, tries, o, inner, request);
      if error.None? {
        PublishTrace(answers, at + |head|, tries + 1, o, inner, request);
      } else {
        assert head + [] == head;
      }
      RoundSteps(answers, at, between, rest, tries, o, inner, request);
      forall i: nat | |head| <= i < |head + rest|
        ensures PublishStep(answers, at, head + rest, i, tries, o, inner, request)
      {
        LaterPublishStep(answers, at, head, rest, i - |head|, tries, o, inner, request);
      }
    }
  }

  /** The steps of a failed round that is not the last. */
  lemma RoundSteps(
      answers: Answers, at: nat, between: seq<Action>, rest: seq<Action>, tries: nat, o: BackoffOptions,
      inner: BackoffOptions, request: Action)
    requires request.PublishRequest? && tries < o.maxRetries && !answers(at).publish.Ack?
    requires between == Between(answers, at + 1, tries, answers(at).publish, o, inner).1
    requires if Between(answers, at + 1, tries, answers(at).publish, o, inner).0.Some? then rest == []
             else rest != [] && rest[0] == request
    ensures multiset([request] + between)[request] == 1
    ensures Between(answers, at + 1, tries, answers(at).publish, o, inner).0.Some? ==>
              (([request] + between)[|between|] == CreateStream)
    ensures forall i: nat | i <= |between| ::
              PublishStep(answers, at, [request] + between + rest, i, tries, o, inner, request)
  {
    hide RequestRun, Delay, PublishStep, TakesTurns, RefusedButLast;
    var t := [request] + between + rest;
    match answers(at).publish {
      case StreamNotFound =>
        RequestTrace(answers, at + 1, 0, inner, CreateStream);
        TurnsEnd(between, inner);
        FirstPublishStep(answers, at, t, tries, o, inner, request);
        forall i: nat | 1 <= i <= |between| ensures PublishStep(answers, at, t, i, tries, o, inner, request) {
          if i % 2 == 1 {
            LoopCreates(answers, at, between, rest, i, tries, o, inner, request);
          } else {
            LoopSleeps(answers, at, between, rest, i, tries, o, inner, request);
          }
        }
        NoRequestIn(between, inner, request);
      case TimedOut =>
        FirstPublishStep(answers, at, t, tries, o, inner, request);
      case OtherError =>
        FirstPublishStep(answers, at, t, tries, o, inner, request);
        SleepStep(answers, at, between[0], rest, tries, o, inner, request);
    }
  }

  lemma SleepStep(
      answers: Answers, at: nat, pause: Action, rest: seq<Action>, tries: nat, o: BackoffOptions,
      inner: BackoffOptions, request: Action)
    requires request.PublishRequest? && pause.Sleep? && rest != [] && rest[0] == request
    ensures PublishStep(answers, at, [request] + [pause] + rest, 1, tries, o, inner, request)
  {
  }

  lemma TurnsEnd(creation: seq<Action>, inner: BackoffOptions)
    requires TakesTurns(creation, 0, inner, CreateStream) && |creation| % 2 == 1
    ensures creation[0] == creation[|creation| - 1] == CreateStream
  {
  }

  lemma NoRequestIn(creation: seq<Action>, inner: BackoffOptions, request: Action)
    requires TakesTurns(creation, 0, inner, CreateStream) && request.PublishRequest?
    ensures request !in creation
  {
  }

  // ---- what a call of `publish` sends ----

  /**
   * A message without a subject or a payload sends nothing. Any other begins with a request of its own subject
   * and payload, and goes on as the answers say.
   */
  lemma MessageTrace(codec: Codec, answers: Answers, at: nat, m: EventMessage)
    ensures var (r, t) := PublishMessage(codec, answers, at, m);
            if Subject(m).None? then r == Err(InvalidMessageId) && t == []
            else if codec.encode(m).None? then r == Err(SerializeError) && t == []
            else
              var request := PublishRequest(Subject(m).value, codec.encode(m).value);
              && t != [] && t[0] == request
              && PublishSteps(answers, at, t, 0, PUBLISH_OPTIONS, DEFAULT_OPTIONS, request)
              && r == OutcomeOf(answers(at + |t| - 1), t[|t| - 1], PUBLISH_OPTIONS)
  {
    hide PublishRun, PublishSteps;
    if Subject(m).Some? && codec.encode(m).Some? {
      var request := PublishRequest(Subject(m).value, codec.encode(m).value);
      PublishTrace(answers, at, 0, PUBLISH_OPTIONS, DEFAULT_OPTIONS, request);
    }
  }

  /** So every publish request carries the subject and the payload of the message. */
  lemma RequestsCarryMessage(codec: Codec, answers: Answers, at: nat, m: EventMessage, a: Action)
    requires a in PublishMessage(codec, answers, at, m).1 && a.PublishRequest?
    ensures Subject(m) == Some(a.subject) && codec.encode(m) == Some(a.payload)
  {
    hide PublishMessage, Delay;
    var t := PublishMessage(codec, answers, at, m).1;
    MessageTrace(codec, answers, at, m);
    var i :| 0 <= i < |t| && t[i] == a;
    var request := PublishRequest(Subject(m).value, codec.encode(m).value);
    assert PublishStep(answers, at, t, i, 0, PUBLISH_OPTIONS, DEFAULT_OPTIONS, request);
  }

  /** After a timeout the same request follows at once, with no sleep between. */
  lemma TimeoutsAreRetriedAtOnce(codec: Codec, answers: Answers, at: nat, m: EventMessage, i: nat)
    requires i + 1 < |PublishMessage(codec, answers, at, m).1| && answers(at + i).publish == TimedOut
    requires PublishMessage(codec, answers, at, m).1[i].PublishRequest?
    ensures var t := PublishMessage(codec, answers, at, m).1; t[i + 1] == t[i]
  {
    hide PublishMessage, Delay;
    MessageTrace(codec, answers, at, m);
    var request := PublishRequest(Subject(m).value, codec.encode(m).value);
    var t := PublishMessage(codec, answers, at, m).1;
    assert PublishStep(answers, at, t, i, 0, PUBLISH_OPTIONS, DEFAULT_OPTIONS, request);
  }
}
