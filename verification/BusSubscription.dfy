/** apis/events/src/mbus_nats.rs: `BusSubscription::next`. */
module Subscriptions {
  import opened Wrappers
  import opened Events

  /** What the message stream of the consumer yields. */
  datatype Delivery = Message(payload: Bytes) | Failure(kind: int)

  /** What the subscriber does with the server. */
  datatype Interaction = Took(item: Delivery) | AckAttempt(payload: Bytes)

  /** The parseable payloads, in order. */
  function Values(codec: Codec, items: seq<Delivery>): seq<EventMessage> {
    if items == [] then []
    else if items[0].Message? && codec.decode(items[0].payload).Some? then
      [codec.decode(items[0].payload).value] + Values(codec, items[1..])
    else Values(codec, items[1..])
  }

  /** What is done with one item. */
  function InteractionsOf(item: Delivery): seq<Interaction> {
    if item.Message? then [Took(item), AckAttempt(item.payload)] else [Took(item)]
  }

  /** Every item taken, every message acknowledged before the item after it is taken. */
  function Interactions(items: seq<Delivery>): seq<Interaction> {
    if items == [] then []
    else InteractionsOf(items[0]) + Interactions(items[1..])
  }

  class BusSubscription {
    const codec: Codec
    var messages: seq<Delivery>
    var trace: seq<Interaction>

    constructor (codec: Codec, messages: seq<Delivery>)
      ensures this.codec == codec && this.messages == messages && trace == []
    {
      this.codec, this.messages, trace := codec, messages, [];
    }

    /**
     * One value off the front of `Values`, or None when there is none left. Nothing is taken beyond the
     * message that holds the value.
     */
    method Next() returns (r: Option<EventMessage>)
      modifies this
      ensures Values(codec, old(messages)) == (if r.Some? then [r.value] else []) + Values(codec, messages)
      ensures r.None? ==> messages == []
      ensures var taken := |old(messages)| - |messages|;
              && taken >= 0 && messages == old(messages)[taken..]
              && (r.Some? ==>
                    && taken > 0 && old(messages)[taken - 1].Message?
                    && codec.decode(old(messages)[taken - 1].payload) == r)
      ensures trace + Interactions(messages) == old(trace) + Interactions(old(messages))
    {
      hide Values, Interactions;
      ghost var whole := trace + Interactions(messages);
      ghost var taken := 0;
      assert messages[0..] == messages;
      while messages != []
        invariant taken + |messages| == |old(messages)| && messages == old(messages)[taken..]
        invariant Values(codec, messages) == Values(codec, old(messages))
        invariant trace + Interactions(messages) == whole
        decreases |messages|
      {
        ghost var before := trace;
        var item := messages[0];
        TakeOne(codec, messages, before, whole);
        messages, taken := messages[1..], taken + 1;
        trace := trace + [Took(item)];
        match item
        case Failure(_) =>
        case Message(payload) =>
          trace := trace + [AckAttempt(payload)];
          assert trace == before + InteractionsOf(item);
          var value := codec.decode(payload);
          if value.Some? {
            return value;
          }
      }
      NothingLeft(codec);
      r := None;
    }

    /** Taking an item moves its interactions to the log, and its value, if it has one, out of the values to come. */
    static lemma TakeOne(codec: Codec, items: seq<Delivery>, log: seq<Interaction>, whole: seq<Interaction>)
      requires items != [] && log + Interactions(items) == whole
      ensures log + InteractionsOf(items[0]) + Interactions(items[1..]) == whole
      ensures Values(codec, items)
              == (if items[0].Message? && codec.decode(items[0].payload).Some? then
                    [codec.decode(items[0].payload).value]
                  else [])
                 + Values(codec, items[1..])
    {
    }

    static lemma NothingLeft(codec: Codec)
      ensures Values(codec, []) == []
    {
    }
  }

  /** What a log of interactions acknowledged. */
  function Acked(trace: seq<Interaction>): seq<Bytes> {
    if trace == [] then []
    else (if trace[0].AckAttempt? then [trace[0].payload] else []) + Acked(trace[1..])
  }

  function Payloads(items: seq<Delivery>): seq<Bytes> {
    if items == [] then []
    else (if items[0].Message? then [items[0].payload] else []) + Payloads(items[1..])
  }

  /** What a log of interactions took. */
  function Taken(trace: seq<Interaction>): seq<Delivery> {
    if trace == [] then [] else (if trace[0].Took? then [trace[0].item] else []) + Taken(trace[1..])
  }

  /** Every item is taken once, in order. */
  lemma {:induction false} TakenOnceInOrder(items: seq<Delivery>)
    ensures Taken(Interactions(items)) == items
  {
    if items != [] {
      TakenOnceInOrder(items[1..]);
      var rest, t := Interactions(items[1..]), Interactions(items);
      if items[0].Message? {
        assert t[1..] == [AckAttempt(items[0].payload)] + rest;
        assert t[1..][1..] == rest;
        assert Taken(t[1..]) == [] + Taken(rest);
      } else {
        assert t[1..] == rest;
      }
    }
  }

  /** The values of two lots are those of the one and then of the other. */
  lemma {:induction false} ValuesInOrder(codec: Codec, first: seq<Delivery>, second: seq<Delivery>)
    ensures Values(codec, first + second) == Values(codec, first) + Values(codec, second)
  {
    hide Values;
    if first == [] {
      NoValues(codec);
      assert first + second == second;
    } else {
      ValuesInOrder(codec, first[1..], second);
      ValuesUnfold(codec, first);
      ValuesUnfold(codec, first + second);
      assert (first + second)[1..] == first[1..] + second;
    }
  }

  lemma NoValues(codec: Codec)
    ensures Values(codec, []) == []
  {
  }

  /** A message has a value exactly if it parses; a failure has none. */
  lemma ValueOfOne(codec: Codec, item: Delivery)
    ensures match item
            case Failure(_) => Values(codec, [item]) == []
            case Message(p) => Values(codec, [item]) == if codec.decode(p).Some? then [codec.decode(p).value] else []
  {
    NoValues(codec);
  }

  lemma ValuesUnfold(codec: Codec, items: seq<Delivery>)
    requires items != []
    ensures Values(codec, items) == Values(codec, [items[0]]) + Values(codec, items[1..])
  {
    ValueOfOne(codec, items[0]);
  }

  /** One ack attempt for each message, in order, and each right after its message was taken. */
  lemma {:induction false} AckedOnceInOrder(items: seq<Delivery>)
    ensures Acked(Interactions(items)) == Payloads(items)
    ensures var t := Interactions(items);
            forall i | 0 <= i < |t| && t[i].Took? && t[i].item.Message? ::
              i + 1 < |t| && t[i + 1] == AckAttempt(t[i].item.payload)
  {
    if items != [] {
      AckedOnceInOrder(items[1..]);
      var rest, t := Interactions(items[1..]), Interactions(items);
      if items[0].Message? {
        assert t[1..] == [AckAttempt(items[0].payload)] + rest;
        assert t[1..][1..] == rest;
        assert Acked(t[1..]) == [items[0].payload] + Acked(rest);
      } else {
        assert t[1..] == rest;
      }
    }
  }
}
