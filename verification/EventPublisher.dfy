/** event-publisher: the producer side, the bounded channel, and the loop that drains it. */
module EventPublisher {
  import opened Wrappers
  import opened Events
  import opened MbusNats

  const MAX_BUFFER_MSGS: nat := 500

  /** A field of a traced event, as the visitor sees it. */
  datatype Field = Str(value: string) | Debug

  /** The message a visitor ends with: the last field that parses, else the default message. */
  function Visited(codec: Codec, fields: seq<Field>): EventMessage {
    if fields == [] then DEFAULT_MESSAGE
    else
      var last := fields[|fields| - 1];
      if last.Str? && codec.parse(last.value).Some? then codec.parse(last.value).value
      else Visited(codec, fields[..|fields| - 1])
  }

  /** A message whose fields never parse has no subject, so it costs the server nothing. */
  lemma {:induction false} UnparsedEventIsNeverSent(codec: Codec, fields: seq<Field>, answers: Answers, at: nat)
    requires forall f | f in fields && f.Str? :: codec.parse(f.value).None?
    ensures Visited(codec, fields) == DEFAULT_MESSAGE
    ensures PublishMessage(codec, answers, at, Visited(codec, fields)) == (Err(InvalidMessageId), [])
  {
    if fields != [] {
      UnparsedEventIsNeverSent(codec, fields[..|fields| - 1], answers, at);
    }
  }

  /** Of the fields that parse the last one wins; with none it is the default message. */
  lemma {:induction false} LastParsedWins(codec: Codec, fields: seq<Field>) returns (k: nat)
    ensures k <= |fields|
    ensures forall i | k <= i < |fields| :: fields[i].Str? ==> codec.parse(fields[i].value).None?
    ensures if k == 0 then Visited(codec, fields) == EventMessage(0, 0, "", None)
            else fields[k - 1].Str? && codec.parse(fields[k - 1].value) == Some(Visited(codec, fields))
  {
    k := |fields|;
    if fields != [] {
      var last := fields[|fields| - 1];
      if !(last.Str? && codec.parse(last.value).Some?) {
        k := LastParsedWins(codec, fields[..|fields| - 1]);
      }
    }
  }

  class EventVisitor {
    const codec: Codec
    var message: EventMessage

    constructor (codec: Codec)
      ensures this.codec == codec && message == DEFAULT_MESSAGE
    {
      this.codec, message := codec, DEFAULT_MESSAGE;
    }

    method RecordStr(value: string)
      modifies this
      ensures message == (if codec.parse(value).Some? then codec.parse(value).value else old(message))
    {
      match codec.parse(value)
      case Some(m) => message := m;
      case None =>
    }
  }

  /** A buffer after an offer: one message longer, or as it was when it is full. */
  function Offer(buffer: seq<EventMessage>, capacity: nat, m: EventMessage): seq<EventMessage> {
    if |buffer| < capacity then buffer + [m] else buffer
  }

  function OfferAll(buffer: seq<EventMessage>, capacity: nat, messages: seq<EventMessage>): seq<EventMessage> {
    if messages == [] then buffer
    else Offer(OfferAll(buffer, capacity, messages[..|messages| - 1]), capacity, messages[|messages| - 1])
  }

  lemma {:induction false} OfferedGoBehind(buffer: seq<EventMessage>, capacity: nat, messages: seq<EventMessage>)
    ensures buffer <= OfferAll(buffer, capacity, messages)
  {
    if messages != [] {
      OfferedGoBehind(buffer, capacity, messages[..|messages| - 1]);
    }
  }

  /** As many of the messages are let in, from the first on, as there is room for. */
  lemma {:induction false} FirstOnesAreLetIn(buffer: seq<EventMessage>, capacity: nat, messages: seq<EventMessage>)
    requires |buffer| <= capacity
    ensures var room := capacity - |buffer|;
            OfferAll(buffer, capacity, messages) == buffer + if |messages| <= room then messages else messages[..room]
  {
    if messages != [] {
      FirstOnesAreLetIn(buffer, capacity, messages[..|messages| - 1]);
    }
  }

  function Flat(arrivals: seq<seq<EventMessage>>): seq<EventMessage> {
    if arrivals == [] then [] else arrivals[0] + Flat(arrivals[1..])
  }

  /** With room for all, all are handed out, in the order they were sent. */
  lemma {:induction false} RoomMeansAllReceived(
      buffer: seq<EventMessage>, capacity: nat, arrivals: seq<seq<EventMessage>>)
    requires |buffer| + |Flat(arrivals)| <= capacity
    ensures AllReceived(buffer, capacity, arrivals) == buffer + Flat(arrivals)
    decreases |arrivals|
  {
    if arrivals == [] {
      assert buffer + [] == buffer;
    } else {
      FirstOnesAreLetIn(buffer, capacity, arrivals[0]);
      var offered := buffer + arrivals[0];
      if offered == [] {
        RoomMeansAllReceived([], capacity, arrivals[1..]);
      } else {
        RoomMeansAllReceived(offered[1..], capacity, arrivals[1..]);
        assert [offered[0]] + (offered[1..] + Flat(arrivals[1..])) == buffer + Flat(arrivals);
      }
    }
  }

  /** Everything a channel hands out until its senders are gone, with so much offered before each receipt. */
  function AllReceived(buffer: seq<EventMessage>, capacity: nat, arrivals: seq<seq<EventMessage>>): seq<EventMessage>
    decreases |arrivals|
  {
    if arrivals == [] then buffer
    else
      var offered := OfferAll(buffer, capacity, arrivals[0]);
      if offered == [] then AllReceived([], capacity, arrivals[1..])
      else [offered[0]] + AllReceived(offered[1..], capacity, arrivals[1..])
  }

  /** What finds room, batch by batch, while one message is taken out after each. */
  function Admitted(buffer: seq<EventMessage>, capacity: nat, arrivals: seq<seq<EventMessage>>): seq<EventMessage>
    decreases |arrivals|
  {
    if arrivals == [] then []
    else
      var offered := OfferAll(buffer, capacity, arrivals[0]);
      OfferedGoBehind(buffer, capacity, arrivals[0]);
      offered[|buffer|..] + Admitted(if offered == [] then [] else offered[1..], capacity, arrivals[1..])
  }

  /** First in, first out: what was buffered, then what found room, in the order it was offered. */
  lemma {:induction false} ReceivedInOrder(buffer: seq<EventMessage>, capacity: nat, arrivals: seq<seq<EventMessage>>)
    ensures AllReceived(buffer, capacity, arrivals) == buffer + Admitted(buffer, capacity, arrivals)
    decreases |arrivals|
  {
    if arrivals == [] {
      assert buffer + [] == buffer;
    } else {
      var offered := OfferAll(buffer, capacity, arrivals[0]);
      var left := if offered == [] then [] else offered[1..];
      OfferedGoBehind(buffer, capacity, arrivals[0]);
      ReceivedInOrder(left, capacity, arrivals[1..]);
      Rejoined(buffer, offered, left, Admitted(left, capacity, arrivals[1..]));
    }
  }

  lemma Rejoined(
      buffer: seq<EventMessage>, offered: seq<EventMessage>, left: seq<EventMessage>, admitted: seq<EventMessage>)
    requires buffer <= offered && left == if offered == [] then [] else offered[1..]
    ensures (if offered == [] then left + admitted else [offered[0]] + (left + admitted))
            == buffer + (offered[|buffer|..] + admitted)
  {
  }

  datatype SendResult = Sent | Full | Closed

  /**
   * The bounded channel between the layer and the publisher. `arrivals` is what other tasks are
   * going to offer, a batch before each time the receiver looks; with none left the senders are gone.
   */
  class Channel {
    const capacity: nat
    var buffer: seq<EventMessage>
    var arrivals: seq<seq<EventMessage>>
    var receiverGone: bool

    constructor (capacity: nat, arrivals: seq<seq<EventMessage>>)
      ensures this.capacity == capacity && buffer == [] && this.arrivals == arrivals && !receiverGone
    {
      this.capacity, buffer, this.arrivals, receiverGone := capacity, [], arrivals, false;
    }

    method TrySend(m: EventMessage) returns (r: SendResult)
      modifies this`buffer
      ensures r == (if receiverGone then Closed else if |old(buffer)| >= capacity then Full else Sent)
      ensures buffer == (if r.Sent? then old(buffer) + [m] else old(buffer))
    {
      if receiverGone {
        return Closed;
      }
      if |buffer| >= capacity {
        return Full;
      }
      buffer := buffer + [m];
      r := Sent;
    }

    /** The other tasks offer their next batch. */
    method Arrive()
      requires arrivals != [] && !receiverGone
      modifies this`buffer, this`arrivals
      ensures buffer == OfferAll(old(buffer), capacity, old(arrivals)[0]) && arrivals == old(arrivals)[1..]
    {
      var batch := arrivals[0];
      arrivals := arrivals[1..];
      for i := 0 to |batch|
        invariant buffer == OfferAll(old(buffer), capacity, batch[..i]) && arrivals == old(arrivals)[1..]
      {
        assert batch[..i + 1][..i] == batch[..i];
        var sent := TrySend(batch[i]);
      }
      assert batch[..|batch|] == batch;
    }

    /** The next message, waited for if need be; None once the senders are gone and the buffer is empty. */
    method Recv() returns (m: Option<EventMessage>)
      requires !receiverGone
      modifies this`buffer, this`arrivals
      ensures AllReceived(old(buffer), capacity, old(arrivals))
              == (if m.Some? then [m.value] else []) + AllReceived(buffer, capacity, arrivals)
      ensures m.None? ==> buffer == [] && arrivals == []
      ensures m.Some? ==> |arrivals| < |old(arrivals)| || (arrivals == old(arrivals) == [] && |buffer| < |old(buffer)|)
    {
      if arrivals != [] {
        Arrive();
        while buffer == [] && arrivals != []
          invariant arrivals == old(arrivals)[|old(arrivals)| - |arrivals|..] && |arrivals| < |old(arrivals)|
          invariant AllReceived(old(buffer), capacity, old(arrivals))
                    == if buffer == [] then AllReceived([], capacity, arrivals)
                       else [buffer[0]] + AllReceived(buffer[1..], capacity, arrivals)
          decreases |arrivals|
        {
          Arrive();
        }
      }
      if buffer == [] {
        return None;
      }
      m := Some(buffer[0]);
      assert buffer == [buffer[0]] + buffer[1..];
      buffer := buffer[1..];
    }
  }

  class EventLayer {
    const sender: Channel
    const codec: Codec

    constructor (sender: Channel, codec: Codec)
      ensures this.sender == sender && this.codec == codec
    {
      this.sender, this.codec := sender, codec;
    }

    /** Never waits: with the buffer full, or the receiver gone, the event is dropped. */
    method OnEvent(fields: seq<Field>)
      modifies sender`buffer
      ensures sender.buffer == (if sender.receiverGone then old(sender.buffer)
                                else Offer(old(sender.buffer), sender.capacity, Visited(codec, fields)))
    {
      var visitor := new EventVisitor(codec);
      for i := 0 to |fields|
        invariant visitor.codec == codec && visitor.message == Visited(codec, fields[..i])
        invariant sender.buffer == old(sender.buffer)
      {
        assert fields[..i + 1][..i] == fields[..i];
        match fields[i]
        case Str(value) => visitor.RecordStr(value);
        case Debug =>
      }
      assert fields[..|fields|] == fields;
      var sent := sender.TrySend(visitor.message);
    }
  }

  /** What draining a buffer logs: the runs of its messages, one whole run after the other. */
  function DrainRun(codec: Codec, answers: Answers, at: nat, messages: seq<EventMessage>): seq<Action>
    decreases |messages|, at
  {
    if messages == [] then []
    else
      var run := PublishMessage(codec, answers, at, messages[0]).1;
      run + DrainRun(codec, answers, at + |run|, messages[1..])
  }

  /** `publish_events`: everything the channel hands out is published, in order, until the senders are gone. */
  method PublishEvents(mbus: NatsMessageBus, recv: Channel)
    requires !recv.receiverGone
    modifies mbus, recv`buffer, recv`arrivals
    ensures recv.buffer == [] && recv.arrivals == []
    ensures var messages := AllReceived(old(recv.buffer), recv.capacity, old(recv.arrivals));
            mbus.log == old(mbus.log) + DrainRun(mbus.codec, mbus.answers, |old(mbus.log)|, messages)
  {
    ghost var messages := AllReceived(recv.buffer, recv.capacity, recv.arrivals);
    ghost var whole := mbus.log + DrainRun(mbus.codec, mbus.answers, |mbus.log|, messages);
    while true
      invariant messages == AllReceived(recv.buffer, recv.capacity, recv.arrivals)
      invariant mbus.log + DrainRun(mbus.codec, mbus.answers, |mbus.log|, messages) == whole
      decreases |recv.arrivals|, |recv.buffer|
    {
      var event := recv.Recv();
      if event.None? {
        assert messages == [] && mbus.log + [] == mbus.log;
        return;
      }
      assert messages[0] == event.value && messages[1..] == AllReceived(recv.buffer, recv.capacity, recv.arrivals);
      DrainStep(mbus.codec, mbus.answers, whole, mbus.log, messages);
      var result := mbus.Publish(event.value);
      messages := messages[1..];
    }
  }

  /** Handling the first message moves its run from the rest of the trace to the log. */
  lemma DrainStep(codec: Codec, answers: Answers, whole: seq<Action>, log: seq<Action>, messages: seq<EventMessage>)
    requires messages != []
    requires log + DrainRun(codec, answers, |log|, messages) == whole
    ensures var after := log + PublishMessage(codec, answers, |log|, messages[0]).1;
            after + DrainRun(codec, answers, |after|, messages[1..]) == whole
  {
    hide DrainRun, PublishMessage;
    var at := |log|;
    var run := PublishMessage(codec, answers, at, messages[0]).1;
    var rest := DrainRun(codec, answers, at + |run|, messages[1..]);
    DrainUnfolds(codec, answers, at, messages, run, rest);
    NatsMessageBus.Advance(whole, log, run, run + rest, rest);
  }

  lemma DrainUnfolds(
      codec: Codec, answers: Answers, at: nat, messages: seq<EventMessage>, run: seq<Action>, rest: seq<Action>)
    requires messages != []
    requires run == PublishMessage(codec, answers, at, messages[0]).1
    requires rest == DrainRun(codec, answers, at + |run|, messages[1..])
    ensures DrainRun(codec, answers, at, messages) == run + rest
  {
    hide PublishMessage;
  }

  /** Draining two lots is draining one and then the other, and a single message is published as by `publish`. */
  lemma {:induction false} DrainsInOrder(
      codec: Codec, answers: Answers, at: nat, first: seq<EventMessage>, second: seq<EventMessage>, m: EventMessage)
    ensures var run := DrainRun(codec, answers, at, first);
            DrainRun(codec, answers, at, first + second) == run + DrainRun(codec, answers, at + |run|, second)
    ensures DrainRun(codec, answers, at, [m]) == PublishMessage(codec, answers, at, m).1
    decreases |first|
  {
    hide PublishMessage;
    assert [m][1..] == [] && PublishMessage(codec, answers, at, m).1 + [] == PublishMessage(codec, answers, at, m).1;
    if first == [] {
      assert first + second == second;
    } else {
      var run := PublishMessage(codec, answers, at, first[0]).1;
      DrainsInOrder(codec, answers, at + |run|, first[1..], second, m);
      assert (first + second)[1..] == first[1..] + second;
    }
  }

  /** The whole drain is bounded by the number of messages, whatever the server does. */
  lemma {:induction false} DrainEffort(codec: Codec, answers: Answers, at: nat, messages: seq<EventMessage>)
    ensures var trace := DrainRun(codec, answers, at, messages);
            && Effort(Publishes, trace) <= 11 * |messages|
            && Effort(Creates, trace) <= 110 * |messages|
            && Effort(Slept, trace) <= 710 * |messages|
    decreases |messages|
  {
    hide PublishMessage;
    if messages != [] {
      var run := PublishMessage(codec, answers, at, messages[0]).1;
      var rest := DrainRun(codec, answers, at + |run|, messages[1..]);
      PublishMessageEffort(codec, answers, at, messages[0]);
      DrainEffort(codec, answers, at + |run|, messages[1..]);
      DrainUnfolds(codec, answers, at, messages, run, rest);
      EffortAdds(Publishes, run, rest);
      EffortAdds(Creates, run, rest);
      EffortAdds(Slept, run, rest);
    }
  }
}
