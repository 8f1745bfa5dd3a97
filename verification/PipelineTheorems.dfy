/** What holds of every run of the event pipeline. */
module PipelineTheorems {
  import opened Wrappers
  import opened Events
  import opened Retry
  import opened MbusNats
  import opened EventPublisher
  import opened Pipeline
  import Subscriptions

  // ---- the channel ----

  /** As many accepted events as the buffer holds are waiting. */
  predicate IsFull(s: State) {
    |Accepted(s.recorded)| >= Begun(s) + 500
  }

  /** The events of a run that were traced while the buffer was full, or while it was not. */
  function Traced(codec: Codec, run: seq<Label>, full: bool): seq<EventMessage> {
    if run == [] then []
    else
      var before, l := run[..|run| - 1], run[|run| - 1];
      var earlier := Traced(codec, before, full);
      match Exec(codec, before)
      case None => earlier
      case Some(s) => if l.Record? && IsFull(s) == full then earlier + [Visited(codec, l.fields)] else earlier
  }

  lemma FullExactly(s: State)
    requires ChannelInv(s)
    ensures IsFull(s) <==> |s.buffer| >= MAX_BUFFER_MSGS
  {
  }

  lemma OnlyRecordRecords(codec: Codec, s: State, l: Label)
    requires Enabled(s, l)
    ensures Apply(codec, s, l).recorded
            == if !l.Record? then s.recorded
               else s.recorded + [Recorded(Visited(codec, l.fields), |s.buffer| < MAX_BUFFER_MSGS)]
  {
  }

  /** Exactly the events traced while 500 others were waiting are dropped; all others are accepted. */
  lemma {:induction false} DroppedExactlyWhenFull(codec: Codec, run: seq<Label>)
    requires Exec(codec, run).Some?
    ensures var s := Exec(codec, run).value;
            Accepted(s.recorded) == Traced(codec, run, false) && Dropped(s.recorded) == Traced(codec, run, true)
  {
    if run != [] {
      var before, l := run[..|run| - 1], run[|run| - 1];
      var s := Exec(codec, before).value;
      DroppedExactlyWhenFull(codec, before);
      EveryRunKeepsInv(codec, before);
      FullExactly(s);
      OnlyRecordRecords(codec, s, l);
    }
  }

  /** Nothing accepted is lost or reordered on its way through the channel, and nothing is left behind at the end. */
  lemma ChannelConserves(codec: Codec, run: seq<Label>)
    requires Exec(codec, run).Some?
    ensures var s := Exec(codec, run).value;
            && Accepted(s.recorded) == HandledMessages(s.handled) + InFlight(s.publisher) + s.buffer
            && |s.buffer| <= MAX_BUFFER_MSGS
            && (s.publisher.Stopped? ==> Accepted(s.recorded) == HandledMessages(s.handled))
  {
    EveryRunKeepsInv(codec, run);
    var s := Exec(codec, run).value;
    if s.publisher.Stopped? {
      assert HandledMessages(s.handled) + [] + [] == HandledMessages(s.handled);
    }
  }

  // ---- the publisher ----

  /**
   * Taking a message is calling `publish`: either the call is over at once, with the same outcome and nothing
   * sent, or the publisher stands at its first request, and from there the call is the path of that phase.
   */
  lemma TakingIsPublishing(codec: Codec, s: State, m: EventMessage, answers: Answers, at: nat)
    requires s.publisher.Idle?
    ensures var t, run := Start(codec, s, m), PublishMessage(codec, answers, at, m);
            if t.publisher.Busy? then
              && t == s.(publisher := t.publisher)
              && t.publisher.message == m && t.publisher.phase == Publishing(0) && t.publisher.awaiting.None?
              && var request := PublishRequest(t.publisher.subject, t.publisher.payload);
                 run == Path(answers, at, t.publisher.phase, PUBLISH_OPTIONS, DEFAULT_OPTIONS, request)
            else t == s.(handled := s.handled + [Handled(m, run.0)]) && run.1 == []
  {
    hide PublishRun, Path;
    if Subject(m).Some? && codec.encode(m).Some? {
      var request := PublishRequest(Subject(m).value, codec.encode(m).value);
      PathIsPublishRun(answers, at, 0, PUBLISH_OPTIONS, DEFAULT_OPTIONS, request);
    }
  }

  /** The server answers `answer`, as the publisher learns in a step. */
  predicate Says(answer: Answer, s: State, l: Label)
    requires Enabled(s, l) && IsAnswer(l)
  {
    if l.Create? then answer.ok == l.ok
    else if l.Fail? then answer.publish == l.reply
    else answer.publish == s.replies[s.publisher.awaiting.value]
  }

  function PathFrom(answers: Answers, at: nat, phase: Phase, request: Action): (Outcome, seq<Action>)
    requires phase.Within(PUBLISH_OPTIONS, DEFAULT_OPTIONS)
  {
    Path(answers, at, phase, PUBLISH_OPTIONS, DEFAULT_OPTIONS, request)
  }

  /** A path begins with a request and ends there, or goes on from the next phase after a sleep at most. */
  ghost predicate OneStep(answers: Answers, at: nat, phase: Phase, next: Phase, request: Action)
    requires phase.Within(PUBLISH_OPTIONS, DEFAULT_OPTIONS)
  {
    var (outcome, path) := PathFrom(answers, at, phase, request);
    && path != [] && path[0] == (if phase.Publishing? then request else CreateStream)
    && if next.Done? then next.outcome == outcome && |path| == 1
       else
         && next.Within(PUBLISH_OPTIONS, DEFAULT_OPTIONS)
         && |path| > 1
         && var sleeps := if path[1].Sleep? then 1 else 0;
            (outcome, path[1 + sleeps..]) == PathFrom(answers, at + 1 + sleeps, next, request)
  }

  /**
   * In every reachable state an answer takes the publisher where it takes `publish`: one step along the path of
   * the call, which either ends with the outcome that is handled or goes on for the same message.
   */
  lemma AnsweringIsPublishing(codec: Codec, run: seq<Label>, l: Label, answers: Answers, at: nat)
    requires Exec(codec, run).Some? && IsAnswer(l) && Enabled(Exec(codec, run).value, l)
    requires Says(answers(at), Exec(codec, run).value, l)
    ensures var s := Exec(codec, run).value;
            var p, t := s.publisher, Apply(codec, s, l);
            && p.phase.Within(PUBLISH_OPTIONS, DEFAULT_OPTIONS)
            && exists next :: OneStep(answers, at, p.phase, next, PublishRequest(p.subject, p.payload))
                 && if next.Done? then
                      t.publisher == Idle && t.handled == s.handled + [Handled(p.message, next.outcome)]
                    else t.publisher == p.(phase := next, awaiting := None) && t.handled == s.handled
  {
    EveryRunKeepsInv(codec, run);
    hide Exec, OneStep, Answered, NextPhase, Apply, Says, Enabled, Phase.Within, PathFrom;
    var s := Exec(codec, run).value;
    AnswerMovesPublisher(codec, s, l, answers(at));
    PathStep(answers, at, s.publisher.phase, PublishRequest(s.publisher.subject, s.publisher.payload));
  }

  lemma AnswerMovesPublisher(codec: Codec, s: State, l: Label, answer: Answer)
    requires PublisherInv(codec, s) && Enabled(s, l) && IsAnswer(l) && Says(answer, s, l)
    ensures var p, t := s.publisher, Apply(codec, s, l);
            && p.Busy? && p.phase.Within(PUBLISH_OPTIONS, DEFAULT_OPTIONS) && !p.phase.Done?
            && var next := Answered(p.phase, answer).0;
               if next.Done? then t.publisher == Idle && t.handled == s.handled + [Handled(p.message, next.outcome)]
               else t.publisher == p.(phase := next, awaiting := None) && t.handled == s.handled
  {
    hide AfterReply, AfterCreate;
  }

  /** The phase after an answer, and the sleep. */
  function Answered(phase: Phase, answer: Answer): (Phase, seq<Action>)
    requires !phase.Done?
  {
    if phase.Publishing? then AfterReply(phase.tries, answer.publish, PUBLISH_OPTIONS)
    else AfterCreate(phase.tries, phase.createTries, answer.ok, DEFAULT_OPTIONS)
  }

  lemma AnsweredSleepsAtMostOnce(phase: Phase, answer: Answer)
    requires phase.Within(PUBLISH_OPTIONS, DEFAULT_OPTIONS) && !phase.Done?
    ensures var (next, pause) := Answered(phase, answer);
            next.Within(PUBLISH_OPTIONS, DEFAULT_OPTIONS) && (pause == [] || (|pause| == 1 && pause[0].Sleep?))
  {
  }

  lemma PathUnfolds(answers: Answers, at: nat, phase: Phase, request: Action)
    requires phase.Within(PUBLISH_OPTIONS, DEFAULT_OPTIONS) && !phase.Done?
    ensures var (next, pause) := Answered(phase, answers(at));
            && next.Within(PUBLISH_OPTIONS, DEFAULT_OPTIONS)
            && var first := [if phase.Publishing? then request else CreateStream];
               var (r, rest) := PathFrom(answers, at + 1 + |pause|, next, request);
               PathFrom(answers, at, phase, request) == (r, if next.Done? then first else first + pause + rest)
  {
    AnsweredSleepsAtMostOnce(phase, answers(at));
    AnyPathUnfolds(answers, at, phase, PUBLISH_OPTIONS, DEFAULT_OPTIONS, request);
    hide AfterReply, AfterCreate, Path, Phase.Within;
  }

  lemma AnyPathUnfolds(
      answers: Answers, at: nat, phase: Phase, o: BackoffOptions, inner: BackoffOptions, request: Action)
    requires phase.Within(o, inner) && !phase.Done?
    ensures var (next, pause) := if phase.Publishing? then AfterReply(phase.tries, answers(at).publish, o)
                                 else AfterCreate(phase.tries, phase.createTries, answers(at).ok, inner);
            && next.Within(o, inner)
            && var first := [if phase.Publishing? then request else CreateStream];
               var (r, rest) := Path(answers, at + 1 + |pause|, next, o, inner, request);
               Path(answers, at, phase, o, inner, request) == (r, if next.Done? then first else first + pause + rest)
  {
    hide Delay;
  }

  lemma PathStep(answers: Answers, at: nat, phase: Phase, request: Action)
    requires phase.Within(PUBLISH_OPTIONS, DEFAULT_OPTIONS) && !phase.Done? && !request.Sleep?
    ensures OneStep(answers, at, phase, Answered(phase, answers(at)).0, request)
  {
    hide PathFrom, Answered, Phase.Within;
    var (next, pause) := Answered(phase, answers(at));
    AnsweredSleepsAtMostOnce(phase, answers(at));
    PathUnfolds(answers, at, phase, request);
    var head := [if phase.Publishing? then request else CreateStream] + pause;
    var rest := PathFrom(answers, at + 1 + |pause|, next, request).1;
    if !next.Done? {
      PathBegins(answers, at + 1 + |pause|, next, request);
      assert (head + rest)[|head|..] == rest && (head + rest)[|head|] == rest[0];
    } else {
      DoneIsOver(answers, at + 1 + |pause|, next, request);
    }
  }

  lemma DoneIsOver(answers: Answers, at: nat, phase: Phase, request: Action)
    requires phase.Done?
    ensures PathFrom(answers, at, phase, request) == (phase.outcome, [])
  {
  }

  lemma PathBegins(answers: Answers, at: nat, phase: Phase, request: Action)
    requires phase.Within(PUBLISH_OPTIONS, DEFAULT_OPTIONS) && !phase.Done?
    ensures var path := PathFrom(answers, at, phase, request).1;
            path != [] && path[0] == if phase.Publishing? then request else CreateStream
  {
    hide AfterReply, AfterCreate;
  }

  // ---- the stream ----

  /** Each entry is the encoding of an accepted event, and no two are of the same one. */
  ghost predicate Selection(codec: Codec, entries: seq<Entry>, accepted: seq<EventMessage>) {
    && (forall i | 0 <= i < |entries| :: Genuine(codec, entries[i].request, accepted))
    && (forall i, j | 0 <= i < j < |entries| :: entries[i].request.origin != entries[j].request.origin)
    && (forall i, j | 0 <= i < j < |entries| :: entries[i].sequence < entries[j].sequence)
  }

  /** The events come in the order they were accepted. */
  ghost predicate InEventOrder(entries: seq<Entry>) {
    forall i, j | 0 <= i < j < |entries| :: entries[i].request.origin < entries[j].request.origin
  }

  lemma StoredIsGenuine(codec: Codec, s: State, e: Entry)
    requires SentInv(codec, s) && WireInv(s) && s.stream.Some? && EntryOf(s.stream.value, e)
    ensures WasSent(s.sent, e.request) && Wire(s)[e.sequence - 1] == e.request
    ensures Genuine(codec, e.request, Accepted(s.recorded))
  {
    assert Wire(s)[e.sequence - 1] == e.request;
    assert WasSent(s.sent, e.request);
  }

  lemma SentOrder(codec: Codec, s: State, a: Request, b: Request)
    requires SentInv(codec, s) && WasSent(s.sent, a) && WasSent(s.sent, b) && a.id < b.id
    ensures a.origin <= b.origin
  {
  }

  lemma OneSubjectPerEvent(codec: Codec, a: Request, b: Request, accepted: seq<EventMessage>)
    requires Genuine(codec, a, accepted) && Genuine(codec, b, accepted) && a.origin == b.origin
    ensures a.subject == b.subject
  {
  }

  lemma EntriesSelect(codec: Codec, s: State)
    requires SentInv(codec, s) && WireInv(s) && StreamInv(s) && s.stream.Some?
    ensures Selection(codec, s.stream.value.entries, Accepted(s.recorded))
  {
    var entries, accepted := s.stream.value.entries, Accepted(s.recorded);
    forall i | 0 <= i < |entries| ensures Genuine(codec, entries[i].request, accepted) {
      StoredIsGenuine(codec, s, entries[i]);
    }
    forall i, j | 0 <= i < j < |entries| ensures entries[i].request.origin != entries[j].request.origin {
      if entries[i].request.origin == entries[j].request.origin {
        OneSubjectPerEvent(codec, entries[i].request, entries[j].request, accepted);
      }
    }
  }

  /** Stored in the order they were sent, requests stand in the order of their events. */
  lemma StoredInOrder(codec: Codec, s: State, a: Entry, b: Entry)
    requires SentInv(codec, s) && WireInv(s) && OrderInv(s) && s.stream.Some?
    requires EntryOf(s.stream.value, a) && EntryOf(s.stream.value, b) && a.sequence < b.sequence
    ensures a.request.origin <= b.request.origin
  {
    StoredIsGenuine(codec, s, a);
    StoredIsGenuine(codec, s, b);
    SentOrder(codec, s, a.request, b.request);
  }

  /**
   * In every reachable state the stream selects from the accepted events, none twice, in whatever order
   * requests are served; served in order, the sequence numbers follow the order of acceptance.
   */
  lemma StreamIsOrderedSelection(codec: Codec, run: seq<Label>)
    requires Exec(codec, run).Some? && Exec(codec, run).value.stream.Some?
    ensures var s := Exec(codec, run).value;
            && Selection(codec, s.stream.value.entries, Accepted(s.recorded))
            && (InOrder(run) ==> InEventOrder(s.stream.value.entries))
  {
    var s := Exec(codec, run).value;
    var entries := s.stream.value.entries;
    EveryRunKeepsInv(codec, run);
    EntriesSelect(codec, s);
    if InOrder(run) {
      EveryOrderedRunKeepsOrder(codec, run);
      forall i, j | 0 <= i < j < |entries| ensures entries[i].request.origin < entries[j].request.origin {
        StoredInOrder(codec, s, entries[i], entries[j]);
      }
    }
  }

  /** An event whose publication succeeded was stored, under the sequence number the caller got. */
  lemma SuccessMeansStored(codec: Codec, run: seq<Label>, k: nat)
    requires Exec(codec, run).Some?
    requires k < |Exec(codec, run).value.handled| && Exec(codec, run).value.handled[k].outcome.Ok?
    ensures exists n: nat | n < |run| :: StoredBy(codec, run, n, k, Exec(codec, run).value.handled[k].outcome.value)
  {
    EveryRunKeepsInv(codec, run);
    AcknowledgedWasStored(codec, run, k, Exec(codec, run).value.handled[k].outcome.value);
  }

  /** Step `n` of the run put the event `origin` into the stream with this sequence number. */
  ghost predicate StoredBy(codec: Codec, run: seq<Label>, n: nat, origin: nat, sequence: nat)
    requires n < |run|
  {
    && Exec(codec, run[..n + 1]).Some?
    && var s := Exec(codec, run[..n + 1]).value;
    && s.stream.Some?
    && exists e | e in s.stream.value.entries :: e.sequence == sequence && e.request.origin == origin
  }

  lemma {:induction false} AcknowledgedWasStored(codec: Codec, run: seq<Label>, origin: nat, sequence: nat)
    requires Exec(codec, run).Some? && (origin, sequence) in Exec(codec, run).value.acknowledged
    ensures exists n: nat | n < |run| :: StoredBy(codec, run, n, origin, sequence)
  {
    if run != [] {
      var last := |run| - 1;
      var s, t := Exec(codec, run[..last]).value, Exec(codec, run).value;
      if (origin, sequence) in s.acknowledged {
        AcknowledgedWasStored(codec, run[..last], origin, sequence);
        var n: nat :| n < last && StoredBy(codec, run[..last], n, origin, sequence);
        assert run[..last][..n + 1] == run[..n + 1];
        assert StoredBy(codec, run, n, origin, sequence);
      } else {
        assert run[last].Serve?;
        var entries := t.stream.value.entries;
        assert entries[|entries| - 1] in entries;
        assert run[..last + 1] == run;
        assert StoredBy(codec, run, last, origin, sequence);
      }
    }
  }

  /** The whole run costs the server at most eleven publish requests for each event begun. */
  lemma RequestsBounded(codec: Codec, run: seq<Label>)
    requires Exec(codec, run).Some?
    ensures var s := Exec(codec, run).value;
            |s.sent| <= 11 * |s.handled| + Spent(s.publisher) <= 11 * Begun(s) <= 11 * |Accepted(s.recorded)|
  {
    EveryRunKeepsInv(codec, run);
  }

  /** The publisher's own steps that one event can still take. */
  function Rank(p: Publisher): int {
    if !p.Busy? then 0
    else match p.phase
      case Publishing(t) => 13 * (10 - t) + if p.awaiting.Some? then 1 else 2
      case Creating(t, c) => 13 * (9 - t) + 2 + (11 - c)
      case Done(_) => 0
  }

  predicate IsPublisherStep(l: Label) {
    l.Send? || IsAnswer(l)
  }

  /** A busy publisher can always move, each move brings it closer to its end, and nothing else moves it. */
  lemma BusyPublisherAdvances(codec: Codec, s: State, l: Label)
    requires PublisherInv(codec, s) && s.publisher.Busy? && Enabled(s, l)
    ensures Enabled(s, Send) || Enabled(s, Fail(TimedOut)) || Enabled(s, Create(false, false))
    ensures var t := Apply(codec, s, l);
            if IsPublisherStep(l) then 0 <= Rank(t.publisher) < Rank(s.publisher) else t.publisher == s.publisher
  {
    if IsAnswer(l) {
      AnswerLowersRank(WithStream(s, l), NextPhase(s, l));
    } else if !l.Send? {
      OthersLeaveBusyPublisher(codec, s, l);
    }
  }

  lemma OthersLeaveBusyPublisher(codec: Codec, s: State, l: Label)
    requires s.publisher.Busy? && Enabled(s, l) && !IsPublisherStep(l)
    ensures Apply(codec, s, l).publisher == s.publisher
  {
  }

  lemma AnswerLowersRank(s: State, phase: Phase)
    requires s.publisher.Busy? && !s.publisher.phase.Done?
    requires match s.publisher.phase
             case Publishing(t) =>
               t <= 10 && (phase.Done? || (t < 10 && (phase == Publishing(t + 1) || phase == Creating(t, 0))))
             case Creating(t, c) =>
               && t < 10 && c <= 10
               && (phase.Done? || phase == Publishing(t + 1) || (c < 10 && phase == Creating(t, c + 1)))
             case Done(_) => true
    ensures 0 <= Rank(Proceed(s, phase).publisher) < Rank(s.publisher)
  {
  }

  function PublisherSteps(run: seq<Label>): nat {
    if run == [] then 0
    else PublisherSteps(run[..|run| - 1]) + if IsPublisherStep(run[|run| - 1]) then 1 else 0
  }

  /** So publishing an event ends: it takes at most 132 steps of the publisher, whatever the server does. */
  lemma {:induction false} PublishingEnds(codec: Codec, run: seq<Label>)
    requires Exec(codec, run).Some?
    ensures var s := Exec(codec, run).value;
            PublisherSteps(run) + Rank(s.publisher) <= 132 * Begun(s) && Rank(s.publisher) >= 0
  {
    if run != [] {
      var before, l := run[..|run| - 1], run[|run| - 1];
      PublishingEnds(codec, before);
      EveryRunKeepsInv(codec, before);
      StepKeepsAccount(codec, Exec(codec, before).value, l);
    }
  }

  lemma StepKeepsAccount(codec: Codec, s: State, l: Label)
    requires ChannelInv(s) && PublisherInv(codec, s) && Enabled(s, l) && Rank(s.publisher) >= 0
    ensures var t := Apply(codec, s, l);
            && Rank(t.publisher) >= 0
            && Rank(t.publisher) + (if IsPublisherStep(l) then 1 else 0)
               <= Rank(s.publisher) + 132 * (Begun(t) - Begun(s))
  {
    ChannelKept(codec, s, l);
    if s.publisher.Busy? {
      BusyPublisherAdvances(codec, s, l);
    } else if l.Take? {
      TakeKeepsChannel(codec, s);
    } else {
      RestingPublisherRests(codec, s, l);
    }
  }

  lemma RestingPublisherRests(codec: Codec, s: State, l: Label)
    requires !s.publisher.Busy? && !l.Take? && Enabled(s, l)
    ensures Rank(Apply(codec, s, l).publisher) == 0 && !IsPublisherStep(l)
  {
  }

  /** An event without an id, such as the default message, never reaches the network. */
  lemma NoIdNoRequest(codec: Codec, run: seq<Label>, r: Request)
    requires Exec(codec, run).Some? && r in Exec(codec, run).value.sent
    ensures var accepted := Accepted(Exec(codec, run).value.recorded);
            r.origin < |accepted| && accepted[r.origin].metadata.Some? && accepted[r.origin] != DEFAULT_MESSAGE
  {
    EveryRunKeepsInv(codec, run);
  }

  // ---- who may remove a message ----

  /** No two accepted events share category and id. */
  ghost predicate DistinctIds(accepted: seq<EventMessage>) {
    forall i, j | 0 <= i < j < |accepted| && accepted[i].metadata.Some? && accepted[j].metadata.Some? ::
      accepted[i].category != accepted[j].category || accepted[i].metadata.value.id != accepted[j].metadata.value.id
  }

  ghost function Held(s: State): set<nat> {
    if s.stream.None? then {} else set e | e in s.stream.value.entries :: e.request.origin
  }

  lemma StoreKeepsOtherEvents(codec: Codec, stream: Stream, r: Request, accepted: seq<EventMessage>, e: Entry)
    requires EntriesInv(stream, stream.entries) && e in stream.entries
    requires DistinctIds(accepted) && Genuine(codec, r, accepted) && Genuine(codec, e.request, accepted)
    ensures exists f | f in Store(stream, r).entries :: f.request.origin == e.request.origin
  {
    var after := Store(stream, r).entries;
    if e.request.origin == r.origin {
      assert after[|after| - 1] in after;
    } else {
      SubjectInjective(accepted[e.request.origin], accepted[r.origin]);
      WithoutMembers(stream.entries, r.subject);
      assert e in Without(stream.entries, r.subject);
      assert e in after;
    }
  }

  /** The requests of stored entries, and of those under way, carry accepted events. */
  lemma WireIsGenuine(codec: Codec, s: State, r: Request)
    requires SentInv(codec, s) && WireInv(s) && r in Wire(s)
    ensures Genuine(codec, r, Accepted(s.recorded))
  {
  }

  lemma EntryOutlivesServe(codec: Codec, s: State, r: Request, e: Entry)
    requires SentInv(codec, s) && WireInv(s) && StreamInv(s) && DistinctIds(Accepted(s.recorded))
    requires s.stream.Some? && r in Wire(s) && e in s.stream.value.entries
    ensures exists f | f in Store(s.stream.value, r).entries :: f.request.origin == e.request.origin
  {
    hide Genuine, DistinctIds, Store, Accepted, SentInv, WireInv;
    var stream := s.stream.value;
    var i :| 0 <= i < |stream.entries| && stream.entries[i] == e;
    assert EntryOf(stream, stream.entries[i]);
    WireIsGenuine(codec, s, r);
    StoredIsGenuine(codec, s, e);
    StoreKeepsOtherEvents(codec, stream, r, Accepted(s.recorded), e);
  }

  lemma ServeKeepsEvents(codec: Codec, s: State, index: nat)
    requires SentInv(codec, s) && WireInv(s) && StreamInv(s) && DistinctIds(Accepted(s.recorded))
    requires index < |s.network|
    ensures Held(s) <= Held(ServeOne(s, index))
  {
    hide DistinctIds, Store, Accepted, SentInv, WireInv, StreamInv;
    if s.stream.Some? {
      assert Wire(s)[|StoredOf(s)| + index] == s.network[index];
      forall e | e in s.stream.value.entries ensures e.request.origin in Held(ServeOne(s, index)) {
        EntryOutlivesServe(codec, s, s.network[index], e);
      }
    }
  }

  /** With distinct ids, only losing the stream or evicting from it takes an event out of it. */
  lemma StepKeepsEvents(codec: Codec, s: State, l: Label)
    requires Inv(codec, s) && Enabled(s, l) && !l.LoseStream? && !l.Evict?
    requires DistinctIds(Accepted(s.recorded))
    ensures Held(s) <= Held(Apply(codec, s, l))
  {
    hide DistinctIds, SentInv, WireInv, StreamInv;
    if l.Serve? {
      ServeKeepsEvents(codec, s, l.index);
    } else {
      assert s.stream.Some? ==> Apply(codec, s, l).stream == s.stream;
    }
  }

  lemma DistinctPrefix(shorter: seq<EventMessage>, longer: seq<EventMessage>)
    requires shorter <= longer && DistinctIds(longer)
    ensures DistinctIds(shorter)
  {
  }

  /** The last step of a run, taken from a reachable state in which ids were distinct as well. */
  lemma LastStep(codec: Codec, run: seq<Label>) returns (s: State)
    requires run != [] && Exec(codec, run).Some? && DistinctIds(Accepted(Exec(codec, run).value.recorded))
    ensures Exec(codec, run[..|run| - 1]) == Some(s) && Enabled(s, run[|run| - 1])
    ensures Exec(codec, run) == Some(Apply(codec, s, run[|run| - 1]))
    ensures Inv(codec, s) && DistinctIds(Accepted(s.recorded))
  {
    var before := run[..|run| - 1];
    s := Exec(codec, before).value;
    EveryRunKeepsInv(codec, before);
    ChannelKept(codec, s, run[|run| - 1]);
    DistinctPrefix(Accepted(s.recorded), Accepted(Exec(codec, run).value.recorded));
  }

  /**
   * Over any stretch of a run without such a loss, what the stream held it still holds: the client itself never
   * displaces an event.
   */
  lemma {:induction false} EventsStayInStream(codec: Codec, run: seq<Label>, m: nat)
    requires m <= |run| && Exec(codec, run).Some?
    requires forall k | m <= k < |run| :: !run[k].LoseStream? && !run[k].Evict?
    requires DistinctIds(Accepted(Exec(codec, run).value.recorded))
    ensures Exec(codec, run[..m]).Some? && Held(Exec(codec, run[..m]).value) <= Held(Exec(codec, run).value)
    decreases |run|
  {
    hide Exec, Apply, Enabled, Inv, Held, DistinctIds;
    if m == |run| {
      assert run[..m] == run;
    } else {
      var before := run[..|run| - 1];
      var s := LastStep(codec, run);
      EventsStayInStream(codec, before, m);
      assert before[..m] == run[..m];
      StepKeepsEvents(codec, s, run[|run| - 1]);
    }
  }

  // ---- the subscriber ----

  /** The events behind a sequence of deliveries. */
  function EventsOf(delivered: seq<Entry>, accepted: seq<EventMessage>): seq<EventMessage>
    requires forall i | 0 <= i < |delivered| :: delivered[i].request.origin < |accepted|
  {
    if delivered == [] then [] else [accepted[delivered[0].request.origin]] + EventsOf(delivered[1..], accepted)
  }

  function PayloadsOf(delivered: seq<Entry>): seq<Bytes> {
    if delivered == [] then [] else [delivered[0].request.payload] + PayloadsOf(delivered[1..])
  }

  /** Payloads of genuine deliveries all parse, whatever failures the message stream reports in between. */
  lemma {:induction false} EveryPayloadParses(
      codec: Codec, items: seq<Subscriptions.Delivery>, delivered: seq<Entry>, accepted: seq<EventMessage>)
    requires Faithful(codec)
    requires forall i | 0 <= i < |delivered| :: Genuine(codec, delivered[i].request, accepted)
    requires forall i | 0 <= i < |delivered| :: delivered[i].request.origin < |accepted|
    requires Subscriptions.Payloads(items) == PayloadsOf(delivered)
    ensures Subscriptions.Values(codec, items) == EventsOf(delivered, accepted)
  {
    if items != [] {
      if items[0].Message? {
        assert delivered != [];
        assert Subscriptions.Payloads(items)[0] == PayloadsOf(delivered)[0];
        assert Subscriptions.Payloads(items)[1..] == Subscriptions.Payloads(items[1..]);
        assert PayloadsOf(delivered)[1..] == PayloadsOf(delivered[1..]);
        assert Genuine(codec, delivered[0].request, accepted);
        EveryPayloadParses(codec, items[1..], delivered[1..], accepted);
      } else {
        EveryPayloadParses(codec, items[1..], delivered, accepted);
      }
    }
  }

  /** What was delivered are accepted events. */
  ghost predicate GenuineDelivery(codec: Codec, delivered: seq<Entry>, accepted: seq<EventMessage>) {
    && (forall i | 0 <= i < |delivered| :: Genuine(codec, delivered[i].request, accepted))
    && (forall i | 0 <= i < |delivered| :: delivered[i].request.origin < |accepted|)
  }

  lemma DeliveredIsGenuine(codec: Codec, s: State)
    requires SentInv(codec, s) && ConsumerInv(s)
    ensures GenuineDelivery(codec, s.delivered, Accepted(s.recorded))
  {
  }

  lemma DeliveredInOrder(codec: Codec, s: State)
    requires SentInv(codec, s) && ConsumerInv(s) && OrderInv(s)
    ensures forall i, j | 0 <= i < j < |s.delivered| :: s.delivered[i].request.origin <= s.delivered[j].request.origin
  {
    forall i, j | 0 <= i < j < |s.delivered| ensures s.delivered[i].request.origin <= s.delivered[j].request.origin {
      var a, b := s.delivered[i].request, s.delivered[j].request;
      assert WasSent(s.sent, a) && WasSent(s.sent, b) && a.id <= b.id;
      if a.id < b.id {
        SentOrder(codec, s, a, b);
      }
    }
  }

  /**
   * End to end: successive `next` calls return the events behind the deliveries, and with requests served
   * in order these come in the order they were accepted.
   */
  lemma SubscriberSeesEventsInOrder(codec: Codec, run: seq<Label>, items: seq<Subscriptions.Delivery>)
    requires Faithful(codec) && Exec(codec, run).Some?
    requires Subscriptions.Payloads(items) == PayloadsOf(Exec(codec, run).value.delivered)
    ensures var s := Exec(codec, run).value;
            && GenuineDelivery(codec, s.delivered, Accepted(s.recorded))
            && Subscriptions.Values(codec, items) == EventsOf(s.delivered, Accepted(s.recorded))
            && (InOrder(run) ==>
                  forall i, j | 0 <= i < j < |s.delivered| ::
                    s.delivered[i].request.origin <= s.delivered[j].request.origin)
  {
    EveryRunKeepsInv(codec, run);
    var s := Exec(codec, run).value;
    DeliveredIsGenuine(codec, s);
    EveryPayloadParses(codec, items, s.delivered, Accepted(s.recorded));
    if InOrder(run) {
      EveryOrderedRunKeepsOrder(codec, run);
      DeliveredInOrder(codec, s);
    }
  }

  /** The entry at the cursor again, or the one with the least sequence number behind it. */
  ghost predicate IsNext(entries: seq<Entry>, cursor: nat, e: Entry) {
    cursor <= e.sequence && forall d | d in entries && cursor < d.sequence :: e.sequence <= d.sequence
  }

  /** Some entry behind the cursor may be delivered. */
  ghost predicate CanAdvance(entries: seq<Entry>, cursor: nat) {
    exists i: nat :: MayDeliver(entries, cursor, i) && cursor < entries[i].sequence
  }

  lemma MayDeliverNext(stream: Stream, entries: seq<Entry>, cursor: nat, i: nat)
    requires EntriesInv(stream, entries) && i < |entries|
    ensures MayDeliver(entries, cursor, i) <==> IsNext(entries, cursor, entries[i])
  {
    hide EntryOf;
    if IsNext(entries, cursor, entries[i]) {
      forall j | 0 <= j < i ensures entries[j].sequence <= cursor {
        assert entries[j] in entries && entries[j].sequence < entries[i].sequence;
      }
    }
  }

  lemma {:induction false} FirstBehind(entries: seq<Entry>, cursor: nat, k: nat)
    requires k < |entries| && cursor < entries[k].sequence
    ensures CanAdvance(entries, cursor)
    decreases k
  {
    if j :| 0 <= j < k && cursor < entries[j].sequence {
      FirstBehind(entries, cursor, j);
    } else {
      assert MayDeliver(entries, cursor, k);
    }
  }

  /**
   * Over every run: what may be delivered next is the entry at the cursor again or the first one behind it, so
   * none is skipped; and as long as there is one behind the cursor, one of those may be delivered.
   */
  lemma DeliverySkipsNothing(codec: Codec, run: seq<Label>, i: nat, d: Entry)
    requires Exec(codec, run).Some? && Exec(codec, run).value.consumer.Some?
    ensures var s := Exec(codec, run).value;
            && s.stream.Some?
            && var entries, cursor := s.stream.value.entries, s.consumer.value;
               && (i < |entries| ==> (Enabled(s, Deliver(i)) <==> IsNext(entries, cursor, entries[i])))
               && (d in entries && cursor < d.sequence ==> CanAdvance(entries, cursor))
  {
    EveryRunKeepsInv(codec, run);
    hide Exec, Enabled, IsNext, CanAdvance, EntriesInv, Genuine;
    NextDelivery(Exec(codec, run).value, i, d);
  }

  lemma NextDelivery(s: State, i: nat, d: Entry)
    requires s.consumer.Some? && s.stream.Some? && StreamInv(s)
    ensures var entries, cursor := s.stream.value.entries, s.consumer.value;
            && (i < |entries| ==> (Enabled(s, Deliver(i)) <==> IsNext(entries, cursor, entries[i])))
            && (d in entries && cursor < d.sequence ==> CanAdvance(entries, cursor))
  {
    hide MayDeliver, IsNext, CanAdvance, EntriesInv;
    var entries, cursor := s.stream.value.entries, s.consumer.value;
    if i < |entries| {
      MayDeliverNext(s.stream.value, entries, cursor, i);
    }
    if d in entries && cursor < d.sequence {
      var k :| 0 <= k < |entries| && entries[k] == d;
      FirstBehind(entries, cursor, k);
    }
  }

  // ---- runs, step by step ----

  /** One more step of a run. */
  lemma Step(codec: Codec, run: seq<Label>, s: State, l: Label) returns (more: seq<Label>, t: State)
    requires Exec(codec, run) == Some(s) && Enabled(s, l)
    ensures more == run + [l] && t == Apply(codec, s, l) && Exec(codec, more) == Some(t)
  {
    more, t := run + [l], Apply(codec, s, l);
  }
}
