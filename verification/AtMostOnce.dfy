/**
 * "At most once": when an event is stored a second time, and handed to a subscriber a second time.
 *
 * The client publishes an event again after it stopped waiting for an answer. That does no harm
 * if the request it gave up was never stored and never will be: refused, or lost on the way. It can
 * store the event twice if that request was stored, even if the stream has been lost since, or
 * is still under way.
 */
module AtMostOnce {
  import opened Wrappers
  import opened Events
  import Retry
  import opened MbusNats
  import opened EventPublisher
  import opened Pipeline
  import opened PipelineTheorems

  // ---- what a run stored and handed out, through every loss of the stream ----

  /** What was ever stored, after one more step. */
  function EverAfter(ever: seq<Entry>, s: State, l: Label): seq<Entry>
    requires Enabled(s, l)
  {
    if l.Serve? && s.stream.Some? then ever + [Entry(|s.stream.value.stored| + 1, s.network[l.index])] else ever
  }

  /** What was ever handed to a subscriber, after one more step. */
  function HandedAfter(handed: seq<Entry>, s: State, l: Label): seq<Entry>
    requires Enabled(s, l)
  {
    if l.Deliver? then handed + [s.stream.value.entries[l.index]] else handed
  }

  /** Everything ever stored, in every stream of the run. */
  function Ever(codec: Codec, run: seq<Label>): seq<Entry> {
    if run == [] then []
    else
      var before, l := run[..|run| - 1], run[|run| - 1];
      match Exec(codec, before)
      case None => Ever(codec, before)
      case Some(s) => if Enabled(s, l) then EverAfter(Ever(codec, before), s, l) else Ever(codec, before)
  }

  /** Everything ever handed out, in every subscription of the run. */
  function HandedOut(codec: Codec, run: seq<Label>): seq<Entry> {
    if run == [] then []
    else
      var before, l := run[..|run| - 1], run[|run| - 1];
      match Exec(codec, before)
      case None => HandedOut(codec, before)
      case Some(s) => if Enabled(s, l) then HandedAfter(HandedOut(codec, before), s, l) else HandedOut(codec, before)
  }

  function Requests(entries: seq<Entry>): seq<Request> {
    seq(|entries|, i requires 0 <= i < |entries| => entries[i].request)
  }

  /** What was ever stored, followed by what is under way. */
  function Copies(ever: seq<Entry>, s: State): seq<Request> {
    Requests(ever) + s.network
  }

  predicate IsCopy(ever: seq<Entry>, s: State, id: nat) {
    exists r | r in Copies(ever, s) :: r.id == id
  }

  /** The client stops waiting for an answer to a request, and will send another. */
  predicate GivesUpRequest(s: State, l: Label) {
    && l.Fail? && s.publisher.Busy? && s.publisher.phase.Publishing? && s.publisher.awaiting.Some?
    && s.publisher.phase.tries < Retry.PUBLISH_OPTIONS.maxRetries
  }

  /** It does so although that request was stored, or is under way. */
  predicate Premature(ever: seq<Entry>, s: State, l: Label) {
    GivesUpRequest(s, l) && IsCopy(ever, s, s.publisher.awaiting.value)
  }

  /** Step `k` gives up the request `id` prematurely. */
  ghost predicate PrematureAt(codec: Codec, run: seq<Label>, k: nat, id: nat) {
    && k < |run| && Exec(codec, run[..k]).Some?
    && var s := Exec(codec, run[..k]).value;
    && Premature(Ever(codec, run[..k]), s, run[k]) && s.publisher.awaiting == Some(id)
  }

  /** No step from the `from`-th on is premature while the event, counted among those accepted, is in flight. */
  ghost predicate Patient(codec: Codec, run: seq<Label>, from: nat, event: nat) {
    forall k | from <= k < |run| && Exec(codec, run[..k]).Some? && |Exec(codec, run[..k]).value.handled| == event ::
      !Premature(Ever(codec, run[..k]), Exec(codec, run[..k]).value, run[k])
  }

  /** The requests given up prematurely in a run. */
  function GivenUp(codec: Codec, run: seq<Label>): set<nat> {
    if run == [] then {}
    else
      var before, l := run[..|run| - 1], run[|run| - 1];
      match Exec(codec, before)
      case None => GivenUp(codec, before)
      case Some(s) =>
        GivenUp(codec, before) + if Premature(Ever(codec, before), s, l) then {s.publisher.awaiting.value} else {}
  }

  // ---- every run ----

  /** Nothing is stored twice under one id, and what the stream stored is part of what was ever stored. */
  ghost predicate EverInv(ever: seq<Entry>, s: State) {
    && SentOnce(s.sent, Copies(ever, s))
    && (s.stream.Some? ==> forall e | EntryOf(s.stream.value, e) :: e in ever)
  }

  /** Only what was stored is handed out. */
  ghost predicate HandInv(ever: seq<Entry>, handed: seq<Entry>, s: State) {
    (forall d | d in handed :: d in ever) && (forall d | d in s.delivered :: d in handed)
  }

  lemma RequestsOfMore(ever: seq<Entry>, e: Entry)
    ensures Requests(ever + [e]) == Requests(ever) + [e.request]
  {
  }

  lemma SendAddsCopy(codec: Codec, ever: seq<Entry>, s: State, r: Request)
    requires Enabled(s, Send) && r == Request(|s.sent|, |s.handled|, s.publisher.subject, s.publisher.payload)
    ensures var t := Apply(codec, s, Send);
            && Copies(ever, t) == Copies(ever, s) + [r] && t.sent == s.sent + [r] && t.replies == s.replies
            && t.handled == s.handled && t.publisher == s.publisher.(awaiting := Some(|s.sent|))
  {
  }

  /** Where the network differs after a step other than sending, one request was taken off it. */
  lemma NetworkAfter(codec: Codec, s: State, l: Label)
    requires Enabled(s, l) && !l.Send?
    ensures var t := Apply(codec, s, l);
            && t.sent == s.sent
            && t.network == if l.Serve? || l.Refuse? || l.LoseRequest? then Removed(s.network, l.index) else s.network
  {
  }

  lemma CopiesKept(codec: Codec, ever: seq<Entry>, s: State, l: Label)
    requires SentOnce(s.sent, Copies(ever, s)) && Enabled(s, l)
    ensures SentOnce(Apply(codec, s, l).sent, Copies(EverAfter(ever, s, l), Apply(codec, s, l)))
  {
    hide Apply;
    if l.Send? {
      var r := Request(|s.sent|, |s.handled|, s.publisher.subject, s.publisher.payload);
      SendAddsCopy(codec, ever, s, r);
      SentCarries(s.sent, Requests(ever), s.network, r);
      assert Requests(ever) + (s.network + [r]) == Copies(ever, s) + [r];
    } else {
      NetworkAfter(codec, s, l);
      if l.Serve? && s.stream.Some? {
        RequestsOfMore(ever, Entry(|s.stream.value.stored| + 1, s.network[l.index]));
        StoreCarries(s.sent, Requests(ever), s.network, l.index);
      } else if l.Serve? || l.Refuse? || l.LoseRequest? {
        RemovedCarries(s.sent, Requests(ever), s.network, l.index);
      }
    }
  }

  lemma StoredKept(codec: Codec, ever: seq<Entry>, s: State, l: Label)
    requires s.stream.Some? ==> forall e | EntryOf(s.stream.value, e) :: e in ever
    requires Enabled(s, l)
    ensures var t := Apply(codec, s, l);
            t.stream.Some? ==> forall e | EntryOf(t.stream.value, e) :: e in EverAfter(ever, s, l)
  {
    var t := Apply(codec, s, l);
    if t.stream.Some? {
      forall e | EntryOf(t.stream.value, e) ensures e in EverAfter(ever, s, l) {
        if s.stream.Some? && e.sequence <= |s.stream.value.stored| {
          assert EntryOf(s.stream.value, e);
        }
      }
    }
  }

  lemma HandKept(codec: Codec, ever: seq<Entry>, handed: seq<Entry>, s: State, l: Label)
    requires StreamInv(s) && ConsumerInv(s) && EverInv(ever, s) && HandInv(ever, handed, s) && Enabled(s, l)
    ensures HandInv(EverAfter(ever, s, l), HandedAfter(handed, s, l), Apply(codec, s, l))
  {
    if l.Deliver? {
      assert EntryOf(s.stream.value, s.stream.value.entries[l.index]);
    } else if l.Attach? {
      assert Apply(codec, s, l).delivered == [];
    } else {
      StepsGrow(codec, s, l);
    }
  }

  lemma {:induction false} EveryRunKeepsEver(codec: Codec, run: seq<Label>)
    requires Exec(codec, run).Some?
    ensures EverInv(Ever(codec, run), Exec(codec, run).value)
    ensures HandInv(Ever(codec, run), HandedOut(codec, run), Exec(codec, run).value)
  {
    if run != [] {
      var before, l := run[..|run| - 1], run[|run| - 1];
      var s := Exec(codec, before).value;
      EveryRunKeepsEver(codec, before);
      EveryRunKeepsInv(codec, before);
      CopiesKept(codec, Ever(codec, before), s, l);
      StoredKept(codec, Ever(codec, before), s, l);
      HandKept(codec, Ever(codec, before), HandedOut(codec, before), s, l);
    }
  }

  // ---- but for the requests given up prematurely, nothing is stored or handed out twice ----

  /** Leaving aside the requests `aside`, no event has two that were stored or are under way. */
  ghost predicate OneRequest(ever: seq<Entry>, s: State, aside: set<nat>) {
    forall a, b | a in Copies(ever, s) && b in Copies(ever, s)
                  && a.id !in aside && b.id !in aside && a.origin == b.origin ::
      a == b
  }

  /** Of the event in flight, only the awaited request was stored or is under way. */
  ghost predicate OnlyAwaited(ever: seq<Entry>, s: State, aside: set<nat>) {
    s.publisher.Busy? ==>
      forall r | r in Copies(ever, s) && r.id !in aside && r.origin == |s.handled| :: s.publisher.awaiting == Some(r.id)
  }

  /** A request that got an error for an answer was not stored and is not under way. */
  ghost predicate RefusedIsGone(ever: seq<Entry>, s: State) {
    forall id | id in s.replies && !s.replies[id].Ack? :: id < |s.sent| && !IsCopy(ever, s, id)
  }

  ghost predicate OnceInv(ever: seq<Entry>, s: State, aside: set<nat>) {
    OneRequest(ever, s, aside) && OnlyAwaited(ever, s, aside) && RefusedIsGone(ever, s)
  }

  /** Only sending makes a new copy. */
  lemma CopiesShrink(codec: Codec, ever: seq<Entry>, s: State, l: Label)
    requires Enabled(s, l) && !l.Send?
    ensures var t := Apply(codec, s, l);
            t.sent == s.sent && forall r | r in Copies(EverAfter(ever, s, l), t) :: r in Copies(ever, s)
  {
    hide Apply;
    NetworkAfter(codec, s, l);
    if l.Serve? && s.stream.Some? {
      RequestsOfMore(ever, Entry(|s.stream.value.stored| + 1, s.network[l.index]));
    }
  }

  lemma OneRequestKept(codec: Codec, ever: seq<Entry>, s: State, l: Label, aside: set<nat>)
    requires OneRequest(ever, s, aside) && OnlyAwaited(ever, s, aside) && Enabled(s, l)
    ensures OneRequest(EverAfter(ever, s, l), Apply(codec, s, l), aside)
  {
    if l.Send? {
      SendAddsCopy(codec, ever, s, Request(|s.sent|, |s.handled|, s.publisher.subject, s.publisher.payload));
    } else {
      CopiesShrink(codec, ever, s, l);
    }
  }

  /** Where the publisher goes on with the same event, it does so without a copy of it. */
  lemma ProceedKeepsAwaited(ever: seq<Entry>, s: State, phase: Phase, aside: set<nat>)
    requires s.publisher.Busy?
    requires phase.Done? || forall r | r in Copies(ever, s) && r.id !in aside :: r.origin != |s.handled|
    ensures OnlyAwaited(ever, Proceed(s, phase), aside)
  {
  }

  /** After an answer that is not the end, there is no copy of the event. */
  lemma AnswerLeavesNothing(codec: Codec, ever: seq<Entry>, s: State, l: Label, aside: set<nat>)
    requires PublisherInv(codec, s) && OnlyAwaited(ever, s, aside) && RefusedIsGone(ever, s) && Enabled(s, l)
    requires IsAnswer(l)
    requires !Premature(ever, s, l) && !NextPhase(s, l).Done?
    ensures forall r | r in Copies(ever, s) && r.id !in aside :: r.origin != |s.handled|
  {
  }

  lemma SentBefore(codec: Codec, ever: seq<Entry>, s: State, r: Request)
    requires SentInv(codec, s) && EverInv(ever, s) && r in Copies(ever, s)
    ensures WasSent(s.sent, r) && r.origin < Begun(s)
  {
  }

  lemma TakeKeepsAwaited(codec: Codec, ever: seq<Entry>, s: State, aside: set<nat>)
    requires SentInv(codec, s) && EverInv(ever, s) && Enabled(s, Take)
    ensures OnlyAwaited(ever, Apply(codec, s, Take), aside)
  {
    forall r | r in Copies(ever, s) ensures r.origin < |s.handled| {
      SentBefore(codec, ever, s, r);
    }
    NetworkAfter(codec, s, Take);
  }

  lemma OthersLeavePublisher(codec: Codec, s: State, l: Label)
    requires Enabled(s, l) && !l.Send? && !l.Take? && !IsAnswer(l)
    ensures var t := Apply(codec, s, l); t.handled == s.handled && (t.publisher == s.publisher || t.publisher.Stopped?)
  {
  }

  lemma OnlyAwaitedKept(codec: Codec, ever: seq<Entry>, s: State, l: Label, aside: set<nat>)
    requires PublisherInv(codec, s) && SentInv(codec, s) && EverInv(ever, s)
    requires OnlyAwaited(ever, s, aside) && RefusedIsGone(ever, s) && Enabled(s, l) && !Premature(ever, s, l)
    ensures OnlyAwaited(EverAfter(ever, s, l), Apply(codec, s, l), aside)
  {
    if l.Send? {
      SendAddsCopy(codec, ever, s, Request(|s.sent|, |s.handled|, s.publisher.subject, s.publisher.payload));
    } else if l.Take? {
      TakeKeepsAwaited(codec, ever, s, aside);
    } else if IsAnswer(l) {
      if !NextPhase(s, l).Done? {
        AnswerLeavesNothing(codec, ever, s, l, aside);
      }
      ProceedKeepsAwaited(ever, WithStream(s, l), NextPhase(s, l), aside);
    } else {
      CopiesShrink(codec, ever, s, l);
      OthersLeavePublisher(codec, s, l);
    }
  }

  /** A request taken off the network without being stored is gone: no copy has its id. */
  lemma RemovedIsGone(ever: seq<Entry>, s: State, t: State, i: nat)
    requires SentOnce(s.sent, Copies(ever, s)) && i < |s.network| && t.network == Removed(s.network, i)
    ensures !IsCopy(ever, t, s.network[i].id)
  {
    var before, after, k := Copies(ever, s), Copies(ever, t), |ever| + i;
    assert before[k] == s.network[i];
    forall j | 0 <= j < |after| ensures after[j].id != s.network[i].id {
      assert after[j] == before[if j < k then j else j + 1];
    }
  }

  lemma OthersAddNoReply(codec: Codec, s: State, l: Label)
    requires Enabled(s, l) && !l.Serve? && !l.Refuse?
    ensures var after := Apply(codec, s, l).replies;
            forall id | id in after :: id in s.replies && after[id] == s.replies[id]
  {
  }

  lemma ServeOrRefuseKeepsGone(codec: Codec, ever: seq<Entry>, s: State, l: Label)
    requires SentInv(codec, s) && EverInv(ever, s) && RefusedIsGone(ever, s) && Enabled(s, l) && (l.Serve? || l.Refuse?)
    ensures RefusedIsGone(EverAfter(ever, s, l), Apply(codec, s, l))
  {
    CopiesShrink(codec, ever, s, l);
    assert s.network[l.index] in Copies(ever, s);
    SentBefore(codec, ever, s, s.network[l.index]);
    if l.Refuse? || s.stream.None? {
      RemovedIsGone(ever, s, Apply(codec, s, l), l.index);
    }
  }

  lemma RefusedIsGoneKept(codec: Codec, ever: seq<Entry>, s: State, l: Label)
    requires SentInv(codec, s) && EverInv(ever, s) && RefusedIsGone(ever, s) && Enabled(s, l)
    ensures RefusedIsGone(EverAfter(ever, s, l), Apply(codec, s, l))
  {
    if l.Send? {
      SendAddsCopy(codec, ever, s, Request(|s.sent|, |s.handled|, s.publisher.subject, s.publisher.payload));
    } else if l.Serve? || l.Refuse? {
      ServeOrRefuseKeepsGone(codec, ever, s, l);
    } else {
      CopiesShrink(codec, ever, s, l);
      OthersAddNoReply(codec, s, l);
    }
  }

  lemma OnceKept(codec: Codec, ever: seq<Entry>, s: State, l: Label, aside: set<nat>)
    requires PublisherInv(codec, s) && SentInv(codec, s) && EverInv(ever, s)
    requires OnceInv(ever, s, aside) && Enabled(s, l) && !Premature(ever, s, l)
    ensures OnceInv(EverAfter(ever, s, l), Apply(codec, s, l), aside)
  {
    OneRequestKept(codec, ever, s, l, aside);
    OnlyAwaitedKept(codec, ever, s, l, aside);
    RefusedIsGoneKept(codec, ever, s, l);
  }

  /** Giving up a request leaves, of the event in flight, no other. */
  lemma GivingUpSetsAside(codec: Codec, ever: seq<Entry>, s: State, l: Label, aside: set<nat>)
    requires PublisherInv(codec, s) && OnceInv(ever, s, aside) && Enabled(s, l) && GivesUpRequest(s, l)
    ensures OnceInv(EverAfter(ever, s, l), Apply(codec, s, l), aside + {s.publisher.awaiting.value})
  {
    var phase := NextPhase(s, l);
    assert !phase.Done?;
    assert Copies(ever, Proceed(s, phase)) == Copies(ever, s);
  }

  /** Over every run, leaving aside the requests given up prematurely, no event has two. */
  lemma {:induction false} EveryRunSetsAside(codec: Codec, run: seq<Label>)
    requires Exec(codec, run).Some?
    ensures OnceInv(Ever(codec, run), Exec(codec, run).value, GivenUp(codec, run))
  {
    hide OnceInv, Premature;
    if run == [] {
      NothingYet(codec);
    } else {
      var before, l := run[..|run| - 1], run[|run| - 1];
      var s, ever, aside := Exec(codec, before).value, Ever(codec, before), GivenUp(codec, before);
      EveryRunSetsAside(codec, before);
      EveryRunKeepsInv(codec, before);
      EveryRunKeepsEver(codec, before);
      EverOfMore(codec, run);
      if Premature(ever, s, l) {
        PrematureGivesUp(ever, s, l);
        GivingUpSetsAside(codec, ever, s, l, aside);
      } else {
        OnceKept(codec, ever, s, l, aside);
        assert aside + {} == aside;
      }
    }
  }

  lemma NothingYet(codec: Codec)
    ensures OnceInv(Ever(codec, []), INIT, {})
  {
  }

  lemma PrematureGivesUp(ever: seq<Entry>, s: State, l: Label)
    requires Premature(ever, s, l)
    ensures GivesUpRequest(s, l)
  {
  }

  lemma EverOfMore(codec: Codec, run: seq<Label>)
    requires run != [] && Exec(codec, run).Some?
    ensures var before, l := run[..|run| - 1], run[|run| - 1];
            && Ever(codec, run) == EverAfter(Ever(codec, before), Exec(codec, before).value, l)
            && HandedOut(codec, run) == HandedAfter(HandedOut(codec, before), Exec(codec, before).value, l)
  {
  }

  lemma {:induction false} GivenUpWhen(codec: Codec, run: seq<Label>, id: nat) returns (k: nat)
    requires id in GivenUp(codec, run)
    ensures PrematureAt(codec, run, k, id)
  {
    hide Premature, Ever;
    var before := run[..|run| - 1];
    if id in GivenUp(codec, before) {
      k := GivenUpWhen(codec, before, id);
      assert before[..k] == run[..k];
    } else {
      k := |run| - 1;
      PrematureGivesUp(Ever(codec, before), Exec(codec, before).value, run[k]);
    }
  }

  /** Two entries with one request are the same entry: a request is stored once. */
  lemma EntryOfRequest(ever: seq<Entry>, s: State, d: Entry, e: Entry)
    requires EverInv(ever, s) && d in ever && e in ever && d.request == e.request
    ensures d == e
  {
    var i, j :| 0 <= i < |ever| && 0 <= j < |ever| && ever[i] == d && ever[j] == e;
    assert Copies(ever, s)[i] == d.request && Copies(ever, s)[j] == e.request;
  }

  /**
   * Over every run, whatever happened to other events: of two requests of one event that were stored, in
   * one stream or in several, or are under way, one was given up prematurely. Requests may be served in any order.
   */
  lemma SecondCopyWasGivenUp(codec: Codec, run: seq<Label>, a: Request, b: Request) returns (k: nat)
    requires Exec(codec, run).Some? && a != b && a.origin == b.origin
    requires a in Copies(Ever(codec, run), Exec(codec, run).value)
    requires b in Copies(Ever(codec, run), Exec(codec, run).value)
    ensures PrematureAt(codec, run, k, a.id) || PrematureAt(codec, run, k, b.id)
  {
    hide Exec, Ever, Copies, GivenUp, PrematureAt;
    EveryRunSetsAside(codec, run);
    if a.id in GivenUp(codec, run) {
      k := GivenUpWhen(codec, run, a.id);
    } else {
      k := GivenUpWhen(codec, run, b.id);
    }
  }

  lemma {:induction false} SentGrows(codec: Codec, run: seq<Label>, more: seq<Label>)
    requires run <= more && Exec(codec, run).Some? && Exec(codec, more).Some?
    ensures Exec(codec, run).value.sent <= Exec(codec, more).value.sent
    decreases |more|
  {
    if |run| < |more| {
      var before, l := more[..|more| - 1], more[|more| - 1];
      SentGrows(codec, run, before);
      StepSends(codec, Exec(codec, before).value, l);
    } else {
      assert run == more;
    }
  }

  lemma StepSends(codec: Codec, s: State, l: Label)
    requires Enabled(s, l)
    ensures s.sent <= Apply(codec, s, l).sent
  {
    if !l.Send? {
      NetworkAfter(codec, s, l);
    }
  }

  /** The request awaited is of the event in flight. */
  lemma AwaitedIsInFlight(codec: Codec, run: seq<Label>, k: nat, r: Request)
    requires Exec(codec, run).Some? && r in Copies(Ever(codec, run), Exec(codec, run).value)
    requires k <= |run| && Exec(codec, run[..k]).Some?
    requires var s := Exec(codec, run[..k]).value; s.publisher.Busy? && s.publisher.awaiting == Some(r.id)
    ensures |Exec(codec, run[..k]).value.handled| == r.origin
  {
    EveryRunKeepsInv(codec, run[..k]);
    EveryRunKeepsInv(codec, run);
    EveryRunKeepsEver(codec, run);
    SentBefore(codec, Ever(codec, run), Exec(codec, run).value, r);
    SentGrows(codec, run[..k], run);
  }

  /** So an event of which no request is given up prematurely is stored once, and handed out as one message. */
  lemma PatientEventIsStoredOnce(codec: Codec, run: seq<Label>, event: nat)
    requires Exec(codec, run).Some? && Patient(codec, run, 0, event)
    ensures var copies := Copies(Ever(codec, run), Exec(codec, run).value);
            forall a, b | a in copies && b in copies && a.origin == b.origin == event :: a == b
    ensures var handed := HandedOut(codec, run);
            forall d, e | d in handed && e in handed && d.request.origin == e.request.origin == event :: d == e
  {
    hide Exec, Ever, HandedOut, Copies;
    var ever, handed, s := Ever(codec, run), HandedOut(codec, run), Exec(codec, run).value;
    var copies := Copies(ever, s);
    EveryRunKeepsEver(codec, run);
    forall a, b | a in copies && b in copies && a.origin == b.origin == event ensures a == b {
      if a != b {
        var k := SecondCopyWasGivenUp(codec, run, a, b);
        AwaitedIsInFlight(codec, run, k, if PrematureAt(codec, run, k, a.id) then a else b);
        assert false;
      }
    }
    forall d, e | d in handed && e in handed && d.request.origin == e.request.origin == event ensures d == e {
      EntryIsCopy(ever, s, d);
      EntryIsCopy(ever, s, e);
      EntryOfRequest(ever, s, d, e);
    }
  }

  /** A run without premature retries stores every event once. */
  lemma PatientRunsStoreOnce(codec: Codec, run: seq<Label>)
    requires Exec(codec, run).Some? && forall event :: Patient(codec, run, 0, event)
    ensures OneAnEvent(Copies(Ever(codec, run), Exec(codec, run).value))
    ensures var handed := HandedOut(codec, run);
            forall d, e | d in handed && e in handed :: d.request.origin == e.request.origin <==> d == e
  {
    hide Exec, Ever, HandedOut, Copies, Patient;
    var handed, copies := HandedOut(codec, run), Copies(Ever(codec, run), Exec(codec, run).value);
    EveryRunKeepsEver(codec, run);
    forall i, j | 0 <= i < j < |copies| ensures copies[i].origin != copies[j].origin {
      PatientEventIsStoredOnce(codec, run, copies[i].origin);
    }
    forall d, e | d in handed && e in handed && d.request.origin == e.request.origin ensures d == e {
      PatientEventIsStoredOnce(codec, run, d.request.origin);
    }
  }

  /** No two requests are of the same event. */
  ghost predicate OneAnEvent(requests: seq<Request>) {
    forall i, j | 0 <= i < j < |requests| :: requests[i].origin != requests[j].origin
  }

  lemma EntryIsCopy(ever: seq<Entry>, s: State, e: Entry)
    requires e in ever
    ensures e.request in Copies(ever, s)
  {
    var i :| 0 <= i < |ever| && ever[i] == e;
    assert Copies(ever, s)[i] == e.request;
  }

  // ---- a premature retry: the event can be stored, and handed out, a second time ----

  /** A longer run that gives up nothing else on the way, and in which no request is overtaken. */
  ghost predicate Continues(run: seq<Label>, more: seq<Label>) {
    run <= more && forall k | |run| <= k < |more| :: !more[k].Fail? && !Overtakes(more[k])
  }

  /** A state of the publisher about to send a request again. */
  predicate Retries(s: State) {
    s.publisher.Busy? && s.publisher.phase.Publishing? && s.publisher.awaiting.None?
  }

  /** What the steps up to the next request, and the serving of what is under way, leave alone. */
  ghost predicate SameEvent(s: State, t: State) {
    && t.recorded == s.recorded && t.handled == s.handled && t.sent == s.sent && t.delivered == s.delivered
    && s.publisher.Busy? && t.publisher.Busy?
    && t.publisher.subject == s.publisher.subject && t.publisher.payload == s.publisher.payload
    && t.consumer == s.consumer
  }

  /** The request is given up, and a stream created where there is none. */
  lemma GivesUp(codec: Codec, run: seq<Label>, s: State, l: Label) returns (more: seq<Label>, t: State)
    requires Exec(codec, run) == Some(s) && Enabled(s, l) && GivesUpRequest(s, l)
    ensures Continues(run + [l], more) && Exec(codec, more) == Some(t)
    ensures SameEvent(s, t) && Retries(t) && t.stream.Some? && Wire(t) == Wire(s)
    ensures t.network == s.network && (s.stream.Some? ==> t.stream == s.stream)
  {
    hide Exec;
    more, t := Step(codec, run, s, l);
    if t.publisher.phase.Creating? {
      more, t := Step(codec, more, t, Create(true, true));
    }
    if t.stream.None? {
      more, t := Step(codec, more, t, MakeStream);
    }
  }

  /** The server stores everything under way, in the order it was sent. */
  lemma Drains(codec: Codec, run: seq<Label>, s: State) returns (more: seq<Label>, t: State)
    requires Exec(codec, run) == Some(s) && Retries(s) && s.stream.Some?
    ensures Continues(run, more) && Exec(codec, more) == Some(t)
    ensures SameEvent(s, t) && Retries(t) && t.network == [] && t.stream.Some? && t.stream.value.stored == Wire(s)
    decreases |s.network|
  {
    hide Exec;
    if s.network == [] {
      more, t := run, s;
    } else {
      more, t := Step(codec, run, s, Serve(0));
      assert Wire(t) == Wire(s);
      more, t := Drains(codec, more, t);
    }
  }

  /** The event is sent again and stored as the last entry of the stream. */
  lemma Resends(codec: Codec, run: seq<Label>, s: State) returns (more: seq<Label>, t: State)
    requires Exec(codec, run) == Some(s) && Retries(s) && s.network == [] && s.stream.Some?
    ensures Continues(run, more) && Exec(codec, more) == Some(t)
    ensures t.recorded == s.recorded && t.delivered == s.delivered && t.consumer == s.consumer && t.stream.Some?
    ensures var r := Request(|s.sent|, |s.handled|, s.publisher.subject, s.publisher.payload);
            && t.stream.value.stored == s.stream.value.stored + [r]
            && t.stream.value.entries != [] && Last(t) == Entry(|t.stream.value.stored|, r)
  {
    hide Exec;
    more, t := Step(codec, run, s, Send);
    more, t := Step(codec, more, t, Serve(0));
  }

  function Last(s: State): Entry
    requires s.stream.Some? && s.stream.value.entries != []
  {
    s.stream.value.entries[|s.stream.value.entries| - 1]
  }

  /** Two requests of the event were stored, in one stream or in two. */
  ghost predicate StoredTwice(ever: seq<Entry>, event: nat) {
    exists i, j | 0 <= i < j < |ever| :: ever[i].request.origin == ever[j].request.origin == event
  }

  lemma TwoAreTwice(ever: seq<Entry>, d: Entry, e: Entry)
    requires d in ever && e in ever && d != e && d.request.origin == e.request.origin
    ensures StoredTwice(ever, d.request.origin)
  {
    var i, j :| 0 <= i < |ever| && 0 <= j < |ever| && ever[i] == d && ever[j] == e;
    assert i < j || j < i;
  }

  /** What was stored and handed out stays so. */
  lemma {:induction false} EverGrows(codec: Codec, run: seq<Label>, more: seq<Label>)
    requires run <= more
    ensures Ever(codec, run) <= Ever(codec, more) && HandedOut(codec, run) <= HandedOut(codec, more)
    decreases |more|
  {
    if |run| < |more| {
      EverGrows(codec, run, more[..|more| - 1]);
    } else {
      assert run == more;
    }
  }

  /**
   * From every reachable state a premature retry can go on, without giving up anything else, until the
   * event given up was stored twice and its second copy is the last entry of the stream.
   */
  lemma PrematureRetryStoresTwice(codec: Codec, run: seq<Label>, l: Label) returns (more: seq<Label>, t: State)
    requires Exec(codec, run).Some? && Enabled(Exec(codec, run).value, l)
    requires Premature(Ever(codec, run), Exec(codec, run).value, l)
    ensures Continues(run + [l], more) && Exec(codec, more) == Some(t)
    ensures StoredTwice(Ever(codec, more), |Exec(codec, run).value.handled|)
    ensures var s := Exec(codec, run).value;
            && t.stream.Some? && t.stream.value.entries != []
            && StoredOf(t) == Wire(s) + [Last(t).request] && Last(t).sequence == |StoredOf(t)|
            && Last(t).request.origin == |s.handled| && Last(t).request.id == |s.sent|
            && t.recorded == s.recorded && t.delivered == s.delivered && t.consumer == s.consumer
  {
    hide Exec, Ever, Copies;
    var s := Exec(codec, run).value;
    var s1, s2;
    more, s1 := GivesUp(codec, run, s, l);
    more, s2 := Drains(codec, more, s1);
    more, t := Resends(codec, more, s2);
    var a := AwaitedCopy(codec, run, s);
    FirstCopyRemains(codec, run, s, more, t, a);
  }

  /** The copy that makes the retry premature is of the event in flight. */
  lemma AwaitedCopy(codec: Codec, run: seq<Label>, s: State) returns (a: Request)
    requires Exec(codec, run) == Some(s) && s.publisher.Busy? && s.publisher.awaiting.Some?
    requires IsCopy(Ever(codec, run), s, s.publisher.awaiting.value)
    ensures a in Copies(Ever(codec, run), s) && a.id < |s.sent| && a.origin == |s.handled|
  {
    EveryRunKeepsInv(codec, run);
    EveryRunKeepsEver(codec, run);
    a :| a in Copies(Ever(codec, run), s) && a.id == s.publisher.awaiting.value;
    SentBefore(codec, Ever(codec, run), s, a);
  }

  /** That copy, stored before or since, and the last entry are two. */
  lemma FirstCopyRemains(codec: Codec, run: seq<Label>, s: State, more: seq<Label>, t: State, a: Request)
    requires Exec(codec, run) == Some(s) && Exec(codec, more) == Some(t) && run <= more
    requires a in Copies(Ever(codec, run), s) && a.id < |s.sent| && a.origin == |s.handled|
    requires t.stream.Some? && t.stream.value.entries != [] && Wire(s) <= StoredOf(t)
    requires EntryOf(t.stream.value, Last(t)) && Last(t).request.origin == |s.handled| && Last(t).request.id == |s.sent|
    ensures StoredTwice(Ever(codec, more), |s.handled|)
  {
    hide Exec, Ever;
    EverGrows(codec, run, more);
    EveryRunKeepsEver(codec, more);
    var ever, later := Ever(codec, run), Ever(codec, more);
    var i :| 0 <= i < |Copies(ever, s)| && Copies(ever, s)[i] == a;
    if i < |ever| {
      assert ever[i] in later;
      TwoAreTwice(later, ever[i], Last(t));
    } else {
      var k := |StoredOf(s)| + i - |ever|;
      assert Wire(s)[k] == a && StoredOf(t)[k] == a;
      assert EntryOf(t.stream.value, Entry(k + 1, a));
      TwoAreTwice(later, Entry(k + 1, a), Last(t));
    }
  }

  /** The run goes on from `run`, without premature retries of the event, until it was stored twice. */
  ghost predicate LeadsToSecondCopy(codec: Codec, run: seq<Label>, more: seq<Label>, event: nat) {
    && run <= more && Patient(codec, more, |run|, event)
    && Exec(codec, more).Some? && StoredTwice(Ever(codec, more), event)
  }

  /**
   * So giving up a request that was stored or is under way, with retries left, is exactly the step that lets
   * its event be stored twice: for any run and any event not given up prematurely so far, a next step can be
   * followed, without such a step for the event, until the event was stored twice if and only if it is one.
   */
  lemma SecondCopyExactlyAfterPrematureRetry(codec: Codec, run: seq<Label>, l: Label, event: nat)
    requires Exec(codec, run).Some? && Patient(codec, run, 0, event) && Enabled(Exec(codec, run).value, l)
    ensures Premature(Ever(codec, run), Exec(codec, run).value, l) && |Exec(codec, run).value.handled| == event
            <==> exists more :: LeadsToSecondCopy(codec, run + [l], more, event)
  {
    hide Ever, Exec, Patient, StoredTwice, Premature, Enabled;
    if Premature(Ever(codec, run), Exec(codec, run).value, l) && |Exec(codec, run).value.handled| == event {
      var more, t := PrematureRetryStoresTwice(codec, run, l);
      ContinuesPatiently(codec, run + [l], more, event);
      assert LeadsToSecondCopy(codec, run + [l], more, event);
    } else if more :| LeadsToSecondCopy(codec, run + [l], more, event) {
      PatientOnward(codec, run, l, more, event);
      PatientEventIsStoredOnce(codec, more, event);
      NotStoredTwice(codec, more, event);
    }
  }

  lemma ContinuesPatiently(codec: Codec, run: seq<Label>, more: seq<Label>, event: nat)
    requires Continues(run, more)
    ensures Patient(codec, more, |run|, event)
  {
    hide Exec, Ever, IsCopy;
  }

  lemma PatientOnward(codec: Codec, run: seq<Label>, l: Label, more: seq<Label>, event: nat)
    requires Exec(codec, run).Some? && Patient(codec, run, 0, event)
    requires |Exec(codec, run).value.handled| == event ==> !Premature(Ever(codec, run), Exec(codec, run).value, l)
    requires run + [l] <= more && Patient(codec, more, |run| + 1, event)
    ensures Patient(codec, more, 0, event)
  {
    hide Exec, Ever, Premature;
    assert more[..|run|] == run && more[|run|] == l;
    forall k | 0 <= k < |run| ensures more[..k] == run[..k] && more[k] == run[k] {
    }
  }

  lemma NotStoredTwice(codec: Codec, run: seq<Label>, event: nat)
    requires Exec(codec, run).Some?
    requires var copies := Copies(Ever(codec, run), Exec(codec, run).value);
             forall a, b | a in copies && b in copies && a.origin == b.origin == event :: a == b
    ensures !StoredTwice(Ever(codec, run), event)
  {
    hide Exec, Ever;
    EveryRunKeepsEver(codec, run);
    var ever, s := Ever(codec, run), Exec(codec, run).value;
    forall i, j | 0 <= i < j < |ever| ensures !(ever[i].request.origin == ever[j].request.origin == event) {
      assert Copies(ever, s)[i] == ever[i].request && Copies(ever, s)[j] == ever[j].request;
    }
  }

  /** The entry a consumer is handed next. */
  lemma {:induction false} NextEntry(entries: seq<Entry>, cursor: nat) returns (i: nat)
    requires entries != [] && cursor < entries[|entries| - 1].sequence
    requires forall i, j | 0 <= i < j < |entries| :: entries[i].sequence < entries[j].sequence
    ensures MayDeliver(entries, cursor, i) && cursor < entries[i].sequence
  {
    if |entries| > 1 && cursor < entries[|entries| - 2].sequence {
      i := NextEntry(entries[..|entries| - 1], cursor);
    } else {
      i := |entries| - 1;
    }
  }

  lemma DeliversOne(codec: Codec, run: seq<Label>, s: State, i: nat) returns (more: seq<Label>, t: State)
    requires Exec(codec, run) == Some(s) && Enabled(s, Deliver(i))
    ensures Continues(run, more) && Exec(codec, more) == Some(t)
    ensures var e := s.stream.value.entries[i]; t == s.(consumer := Some(e.sequence), delivered := s.delivered + [e])
  {
    more, t := Step(codec, run, s, Deliver(i));
  }

  /** A consumer can be handed everything up to the last entry of the stream. */
  lemma DeliversLast(codec: Codec, run: seq<Label>, s: State) returns (more: seq<Label>, t: State)
    requires Exec(codec, run) == Some(s) && s.stream.Some? && s.stream.value.entries != []
    requires s.consumer.Some? && s.consumer.value < Last(s).sequence && StreamInv(s)
    ensures Continues(run, more) && Exec(codec, more) == Some(t)
    ensures s.delivered <= t.delivered && Last(s) in t.delivered && t.stream == s.stream && t.recorded == s.recorded
    decreases Last(s).sequence - s.consumer.value
  {
    hide Exec;
    var entries := s.stream.value.entries;
    var i := NextEntry(entries, s.consumer.value);
    more, t := DeliversOne(codec, run, s, i);
    assert t.delivered[|s.delivered|] == entries[i];
    if i < |entries| - 1 {
      more, t := DeliversLast(codec, more, t);
    }
  }

  /** The second copy is handed out, to the consumer there is or to a new one. */
  lemma HandsOutLast(codec: Codec, run: seq<Label>, s: State) returns (more: seq<Label>, t: State)
    requires Exec(codec, run) == Some(s) && s.stream.Some? && s.stream.value.entries != []
    requires s.consumer.Some? ==> s.consumer.value < Last(s).sequence
    ensures Continues(run, more) && Exec(codec, more) == Some(t) && Last(s) in t.delivered
    ensures t.stream == s.stream && t.recorded == s.recorded
    ensures s.consumer.Some? ==> s.delivered <= t.delivered
  {
    hide Exec, Inv;
    StreamOf(codec, run, s);
    more, t := run, s;
    if s.consumer.None? {
      more, t := Step(codec, run, s, Attach(0));
    }
    more, t := DeliversLast(codec, more, t);
  }

  lemma StreamOf(codec: Codec, run: seq<Label>, s: State)
    requires Exec(codec, run) == Some(s)
    ensures StreamInv(s) && ConsumerInv(s)
    ensures s.stream.Some? && s.stream.value.entries != [] ==> Last(s).sequence > 0
  {
    EveryRunKeepsInv(codec, run);
  }

  /** A request given up after it was handed out was stored, and is of the event in flight. */
  lemma HandedIsCopy(codec: Codec, run: seq<Label>, s: State, d: Entry)
    requires Exec(codec, run) == Some(s) && d in HandedOut(codec, run)
    requires s.publisher.Busy? && s.publisher.awaiting == Some(d.request.id)
    ensures IsCopy(Ever(codec, run), s, d.request.id) && d.request.id < |s.sent| && d.request.origin == |s.handled|
  {
    EveryRunKeepsInv(codec, run);
    EveryRunKeepsEver(codec, run);
    EntryIsCopy(Ever(codec, run), s, d);
    SentBefore(codec, Ever(codec, run), s, d.request);
  }

  lemma BehindCursor(codec: Codec, run: seq<Label>, s: State)
    requires Exec(codec, run) == Some(s) && s.consumer.Some?
    ensures s.consumer.value <= |StoredOf(s)| && forall d | d in s.delivered :: d.sequence <= s.consumer.value
  {
    EveryRunKeepsInv(codec, run);
  }

  lemma DeliveredIsHanded(codec: Codec, run: seq<Label>, s: State, d: Entry)
    requires Exec(codec, run) == Some(s) && d in s.delivered
    ensures d in HandedOut(codec, run)
  {
    EveryRunKeepsEver(codec, run);
  }

  lemma HandedStays(codec: Codec, run: seq<Label>, more: seq<Label>, t: State, d: Entry, e: Entry)
    requires run <= more && Exec(codec, more) == Some(t) && d in HandedOut(codec, run) && e in t.delivered
    ensures d in HandedOut(codec, more) && e in HandedOut(codec, more)
  {
    EverGrows(codec, run, more);
    EveryRunKeepsEver(codec, more);
  }

  /**
   * Giving up a request that a subscriber was already handed, in whatever subscription, can go on until a
   * subscriber is handed the event again as another message, with a later number if it is still the same one.
   */
  lemma PrematureRetryDeliversTwice(codec: Codec, run: seq<Label>, l: Label, d: Entry)
    returns (more: seq<Label>, t: State, e: Entry)
    requires Exec(codec, run).Some? && Enabled(Exec(codec, run).value, l) && GivesUpRequest(Exec(codec, run).value, l)
    requires d in HandedOut(codec, run) && Exec(codec, run).value.publisher.awaiting == Some(d.request.id)
    ensures Premature(Ever(codec, run), Exec(codec, run).value, l)
    ensures Continues(run + [l], more) && Exec(codec, more) == Some(t)
    ensures d in HandedOut(codec, more) && e in HandedOut(codec, more)
    ensures e.request.origin == d.request.origin == |Exec(codec, run).value.handled| && e.request != d.request
    ensures var s := Exec(codec, run).value;
            && t.recorded == s.recorded && |StoredOf(t)| == |Wire(s)| + 1
            && (s.consumer.Some? && d in s.delivered ==>
                  d in t.delivered && e in t.delivered && d.sequence < e.sequence)
  {
    hide Exec, Ever, HandedOut, IsCopy, StoredTwice;
    var s := Exec(codec, run).value;
    HandedIsCopy(codec, run, s, d);
    if s.consumer.Some? {
      BehindCursor(codec, run, s);
    }
    var s1;
    more, s1 := PrematureRetryStoresTwice(codec, run, l);
    e := Last(s1);
    more, t := HandsOutLast(codec, more, s1);
    HandedStays(codec, run, more, t, d, e);
  }
}
