/** Runs of the event pipeline: an event delivered twice, in one stream or in two, and a request that is overtaken. */
module PipelineRuns {
  import opened Wrappers
  import opened Events
  import opened MbusNats
  import opened EventPublisher
  import opened Pipeline
  import opened PipelineTheorems
  import opened AtMostOnce

  /** The text of a traced event that parses, with a subject and a payload. */
  ghost predicate Publishable(codec: Codec, text: string) {
    codec.parse(text).Some? && Subject(codec.parse(text).value).Some? && codec.encode(codec.parse(text).value).Some?
  }

  lemma NoSteps(codec: Codec)
    ensures Exec(codec, []) == Some(INIT)
  {
  }

  lemma VisitedOne(codec: Codec, text: string)
    requires codec.parse(text).Some?
    ensures Visited(codec, [Str(text)]) == codec.parse(text).value
  {
  }

  /** An event is traced, accepted and waiting. */
  lemma Traces(codec: Codec, run: seq<Label>, s: State, text: string) returns (more: seq<Label>, t: State)
    requires Exec(codec, run) == Some(s) && codec.parse(text).Some? && !s.sendersGone && |s.buffer| < MAX_BUFFER_MSGS
    ensures Exec(codec, more) == Some(t)
    ensures InOrder(run) ==> InOrder(more)
    ensures var m := codec.parse(text).value;
            t == s.(recorded := s.recorded + [Recorded(m, true)], buffer := s.buffer + [m])
  {
    VisitedOne(codec, text);
    more, t := Step(codec, run, s, Record([Str(text)]));
  }

  /** A waiting event with subject and payload is taken, and its first request sent. */
  lemma TakesAndSends(codec: Codec, run: seq<Label>, s: State) returns (more: seq<Label>, t: State)
    requires Exec(codec, run) == Some(s) && s.publisher.Idle? && s.buffer != []
    requires Subject(s.buffer[0]).Some? && codec.encode(s.buffer[0]).Some?
    ensures Exec(codec, more) == Some(t)
    ensures InOrder(run) ==> InOrder(more)
    ensures var m := s.buffer[0];
            var r := Request(|s.sent|, |s.handled|, Subject(m).value, codec.encode(m).value);
            t == s.(buffer := s.buffer[1..], sent := s.sent + [r], network := s.network + [r],
                    publisher := Busy(m, r.subject, r.payload, Publishing(0), Some(r.id)))
  {
    hide Exec;
    more, t := Step(codec, run, s, Take);
    more, t := Step(codec, more, t, Send);
  }

  lemma StoreFirst(r: Request)
    ensures Store(Stream([], []), r) == Stream([r], [Entry(1, r)])
  {
  }

  /** The only request under way is stored as the first. */
  lemma StoresFirst(codec: Codec, run: seq<Label>, s: State, r: Request) returns (more: seq<Label>, t: State)
    requires Exec(codec, run) == Some(s) && s.network == [r] && s.stream == Some(Stream([], []))
    ensures Exec(codec, more) == Some(t) && (InOrder(run) ==> InOrder(more))
    ensures t == s.(network := [], stream := Some(Stream([r], [Entry(1, r)])), replies := s.replies[r.id := Ack(1)],
                    acknowledged := s.acknowledged + {(r.origin, 1)})
  {
    hide Exec;
    StoreFirst(r);
    more, t := Step(codec, run, s, Serve(0));
    assert t.network == [];
  }

  /** An event is traced, taken and sent, with a consumer attached to an empty stream. */
  lemma FirstSent(codec: Codec, text: string) returns (run: seq<Label>, s: State, r: Request)
    requires Publishable(codec, text)
    ensures Exec(codec, run) == Some(s) && InOrder(run) && r.id == r.origin == 0
    ensures var m := codec.parse(text).value;
            s == INIT.(recorded := [Recorded(m, true)], sent := [r], network := [r], stream := Some(Stream([], [])),
                       consumer := Some(0), publisher := Busy(m, r.subject, r.payload, Publishing(0), Some(0)))
  {
    hide Exec;
    NoSteps(codec);
    run, s := Traces(codec, [], INIT, text);
    run, s := Step(codec, run, s, MakeStream);
    run, s := Step(codec, run, s, Attach(0));
    run, s := TakesAndSends(codec, run, s);
    r := s.network[0];
    assert s.recorded == [Recorded(codec.parse(text).value, true)] && s.buffer == [] && s.sent == s.network == [r];
  }

  /** It is stored and delivered, and the answer lost. */
  lemma FirstCopyDelivered(codec: Codec, text: string) returns (run: seq<Label>, s: State, r: Request)
    requires Publishable(codec, text)
    ensures Exec(codec, run) == Some(s) && InOrder(run) && r.id == r.origin == 0
    ensures |s.recorded| == 1 && s.handled == [] && s.consumer == Some(1) && s.delivered == [Entry(1, r)]
    ensures s.publisher.Busy? && s.publisher.phase == Publishing(0) && s.publisher.awaiting == Some(0)
    ensures s.stream == Some(Stream([r], [Entry(1, r)])) && s.network == []
  {
    hide Exec;
    run, s, r := FirstSent(codec, text);
    run, s := StoresFirst(codec, run, s, r);
    run, s := DeliversOne(codec, run, s, 0);
    run, s := Step(codec, run, s, LoseReply(0));
  }

  lemma KeepsStream(codec: Codec, run: seq<Label>, s: State)
    requires Exec(codec, run) == Some(s)
    ensures StreamInv(s)
  {
    EveryRunKeepsInv(codec, run);
  }

  /** A consumer that has seen all messages but the last is handed that one. */
  lemma LastIsNext(codec: Codec, run: seq<Label>, s: State, cursor: nat)
    requires Exec(codec, run) == Some(s) && s.stream.Some? && s.stream.value.entries != []
    requires Last(s).sequence == |StoredOf(s)| == cursor + 1
    ensures MayDeliver(s.stream.value.entries, cursor, |s.stream.value.entries| - 1)
  {
    hide Exec;
    KeepsStream(codec, run, s);
  }

  lemma StoredIsCopy(codec: Codec, run: seq<Label>, s: State, e: Entry)
    requires Exec(codec, run) == Some(s) && s.stream.Some? && EntryOf(s.stream.value, e)
    ensures IsCopy(Ever(codec, run), s, e.request.id)
  {
    EveryRunKeepsEver(codec, run);
    EntryIsCopy(Ever(codec, run), s, e);
  }

  /**
   * A subscriber is handed the one event traced twice, under two sequence numbers, with requests served in
   * order: the answer to the first request is lost, the client times out, and its retry is stored too.
   */
  lemma LostAckDeliversTwice(codec: Codec, text: string) returns (run: seq<Label>)
    requires Publishable(codec, text)
    ensures Exec(codec, run).Some? && InOrder(run)
    ensures var s := Exec(codec, run).value;
            |s.recorded| == 1 && |s.delivered| == 2
            && s.delivered[0].request.origin == s.delivered[1].request.origin == 0
            && s.delivered[0].sequence != s.delivered[1].sequence
  {
    hide Exec, MayDeliver, Ever, IsCopy, StoredTwice;
    var first, s, r := FirstCopyDelivered(codec, text);
    StoredIsCopy(codec, first, s, Entry(1, r));
    var t;
    run, t := PrematureRetryStoresTwice(codec, first, Fail(TimedOut));
    LastIsNext(codec, run, t, 1);
    run, t := DeliversOne(codec, run, t, |t.stream.value.entries| - 1);
  }

  /**
   * The same with a server that loses the stream after handing out the event: the retry, for which the first
   * copy no longer exists, is stored as the only message of a new stream and handed out as well.
   */
  lemma RestartDeliversTwice(codec: Codec, text: string) returns (run: seq<Label>, d: Entry, e: Entry)
    requires Publishable(codec, text)
    ensures Exec(codec, run).Some? && InOrder(run)
    ensures |Exec(codec, run).value.recorded| == 1 && |StoredOf(Exec(codec, run).value)| == 1
    ensures d in HandedOut(codec, run) && e in HandedOut(codec, run)
    ensures d.request.origin == e.request.origin == 0 && d.request != e.request
  {
    hide Exec, HandedOut, Ever, Premature, IsCopy;
    var first, s, r := FirstCopyDelivered(codec, text);
    d := Entry(1, r);
    var lost;
    lost, s := Step(codec, first, s, LoseStream);
    DeliveredIsHanded(codec, lost, s, d);
    var t;
    run, t, e := PrematureRetryDeliversTwice(codec, lost, Fail(TimedOut), d);
  }

  /**
   * Why the order of acceptance needs requests to be served in order: a first request, overtaken by its own
   * retry and by the next event, is stored behind that event.
   */
  lemma OvertakenRequestBreaksOrder(codec: Codec, a: string, b: string) returns (run: seq<Label>)
    requires Publishable(codec, a) && Publishable(codec, b)
    requires Subject(codec.parse(a).value) != Subject(codec.parse(b).value)
    ensures Exec(codec, run).Some? && Exec(codec, run).value.stream.Some?
    ensures !InEventOrder(Exec(codec, run).value.stream.value.entries)
  {
    hide Exec;
    var s, late;
    run, s, late := RetryOvertakes(codec, a, b);
    run, s := TakesAndSends(codec, run, s);
    var next := s.network[1];
    run, s := Step(codec, run, s, Serve(1));
    run, s := Step(codec, run, s, Serve(0));
    LateCopyIsLast(late.(id := 1), next, late);
    var entries := s.stream.value.entries;
    assert entries == [Entry(2, next), Entry(3, late)] && !(entries[0].request.origin < entries[1].request.origin);
  }

  /** Two events are accepted, and the first is sent twice. */
  lemma FirstSentTwice(codec: Codec, a: string, b: string) returns (run: seq<Label>, s: State, r: Request)
    requires Publishable(codec, a) && Publishable(codec, b)
    ensures Exec(codec, run) == Some(s) && r.origin == 0 && Some(r.subject) == Subject(codec.parse(a).value)
    ensures s.publisher.Busy? && s.publisher.phase == Publishing(1) && s.publisher.awaiting == Some(1)
    ensures s.buffer == [codec.parse(b).value] && s.handled == [] && s.replies == map[]
    ensures s.stream == Some(Stream([], []))
    ensures |s.sent| == 2 && s.network == [r, r.(id := 1)]
  {
    hide Exec;
    NoSteps(codec);
    run, s := Traces(codec, [], INIT, a);
    run, s := Traces(codec, run, s, b);
    run, s := Step(codec, run, s, MakeStream);
    run, s := TakesAndSends(codec, run, s);
    r := s.network[0];
    run, s := Step(codec, run, s, Fail(TimedOut));
    run, s := Step(codec, run, s, Send);
  }

  /** The second request is served before the first, and the event is done. */
  lemma RetryOvertakes(codec: Codec, a: string, b: string) returns (run: seq<Label>, s: State, r: Request)
    requires Publishable(codec, a) && Publishable(codec, b)
    ensures Exec(codec, run) == Some(s) && r.origin == 0 && Some(r.subject) == Subject(codec.parse(a).value)
    ensures s.publisher.Idle? && s.buffer == [codec.parse(b).value] && |s.handled| == 1 && |s.sent| == 2
    ensures s.network == [r] && s.stream == Some(Stream([r.(id := 1)], [Entry(1, r.(id := 1))]))
  {
    hide Exec;
    run, s, r := FirstSentTwice(codec, a, b);
    StoreFirst(r.(id := 1));
    run, s := Step(codec, run, s, Serve(1));
    run, s := Step(codec, run, s, Receive);
  }

  lemma WithoutOne(e: Entry, subject: string)
    ensures Without([e], subject) == if e.request.subject == subject then [] else [e]
  {
  }

  lemma WithoutTwo(e: Entry, f: Entry, subject: string)
    requires e.request.subject != subject
    ensures Without([f, e], subject) == if f.request.subject == subject then [e] else [f, e]
  {
    WithoutOne(f, subject);
    assert [f, e][..1] == [f];
  }

  lemma LateCopyIsLast(first: Request, second: Request, late: Request)
    requires first.subject == late.subject != second.subject
    ensures Store(Store(Stream([first], [Entry(1, first)]), second), late).entries == [Entry(2, second), Entry(3, late)]
  {
    hide Without;
    WithoutOne(Entry(1, first), second.subject);
    assert Store(Stream([first], [Entry(1, first)]), second).entries == [Entry(1, first), Entry(2, second)];
    WithoutTwo(Entry(2, second), Entry(1, first), late.subject);
  }
}
