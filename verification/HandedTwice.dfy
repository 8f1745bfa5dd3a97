/**
 * When a subscriber is handed an event as two messages: only if a request of that event was given
 * up, with retries left, that was handed out already or still could be; and every such step can
 * lead to it. What happened to other events makes no difference.
 */
module HandedTwice {
  import opened Wrappers
  import opened Events
  import opened MbusNats
  import opened EventPublisher
  import opened Pipeline
  import opened PipelineTheorems
  import opened AtMostOnce

  /** The request is under way, or its message is in the stream. */
  predicate IsAtHand(s: State, id: nat) {
    || (exists r | r in s.network :: r.id == id)
    || (s.stream.Some? && exists e | e in s.stream.value.entries :: e.request.id == id)
  }

  predicate WasHanded(handed: seq<Entry>, id: nat) {
    exists d | d in handed :: d.request.id == id
  }

  /** The client gives up a request that a subscriber has been handed, or can be. */
  predicate GivesUpVisible(handed: seq<Entry>, s: State, l: Label) {
    GivesUpRequest(s, l) && (WasHanded(handed, s.publisher.awaiting.value) || IsAtHand(s, s.publisher.awaiting.value))
  }

  /** Step `k` gives up the request `id`, which a subscriber has been handed, or can be. */
  ghost predicate VisibleAt(codec: Codec, run: seq<Label>, k: nat, id: nat) {
    && k < |run| && Exec(codec, run[..k]).Some?
    && var s := Exec(codec, run[..k]).value;
    && GivesUpVisible(HandedOut(codec, run[..k]), s, run[k]) && s.publisher.awaiting == Some(id)
  }

  /** No step from the `from`-th on gives up such a request of the event. */
  ghost predicate Discreet(codec: Codec, run: seq<Label>, from: nat, event: nat) {
    forall k | from <= k < |run| && Exec(codec, run[..k]).Some? && |Exec(codec, run[..k]).value.handled| == event ::
      !GivesUpVisible(HandedOut(codec, run[..k]), Exec(codec, run[..k]).value, run[k])
  }

  /** Two messages of the event were handed out, in one subscription or in several. */
  ghost predicate HandedAsTwo(handed: seq<Entry>, event: nat) {
    exists d, e :: d in handed && e in handed && d.request.origin == e.request.origin == event && d != e
  }

  // ---- what is not at hand is never handed out ----

  lemma StoreShowsOnly(stream: Stream, r: Request, e: Entry)
    requires e in Store(stream, r).entries
    ensures e.request == r || e in stream.entries
  {
    WithoutMembers(stream.entries, r.subject);
  }

  lemma ServeKeepsAway(s: State, i: nat, id: nat)
    requires i < |s.network| && !IsAtHand(s, id)
    ensures !IsAtHand(ServeOne(s, i), id)
  {
    if s.stream.Some? {
      var r := s.network[i];
      forall e | e in Store(s.stream.value, r).entries ensures e.request.id != id {
        StoreShowsOnly(s.stream.value, r, e);
      }
    }
  }

  lemma StaysAway(codec: Codec, s: State, l: Label, id: nat)
    requires !IsAtHand(s, id) && id < |s.sent| && Enabled(s, l)
    ensures !IsAtHand(Apply(codec, s, l), id) && id < |Apply(codec, s, l).sent|
  {
    if l.Serve? {
      ServeKeepsAway(s, l.index, id);
    } else if l.Send? {
      SendAddsCopy(codec, [], s, Request(|s.sent|, |s.handled|, s.publisher.subject, s.publisher.payload));
    } else {
      NetworkAfter(codec, s, l);
    }
  }

  lemma {:induction false} StaysUnhanded(codec: Codec, run: seq<Label>, more: seq<Label>, id: nat)
    requires run <= more && Exec(codec, run).Some? && Exec(codec, more).Some?
    requires !IsAtHand(Exec(codec, run).value, id) && id < |Exec(codec, run).value.sent|
    requires !WasHanded(HandedOut(codec, run), id)
    ensures !WasHanded(HandedOut(codec, more), id)
    ensures !IsAtHand(Exec(codec, more).value, id) && id < |Exec(codec, more).value.sent|
    decreases |more|
  {
    hide HandedOut, IsAtHand;
    if |run| < |more| {
      var before, l := more[..|more| - 1], more[|more| - 1];
      var s := Exec(codec, before).value;
      StaysUnhanded(codec, run, before, id);
      StaysAway(codec, s, l, id);
      EverOfMore(codec, more);
      HandsOnlyAtHand(HandedOut(codec, before), s, l, id);
    } else {
      assert more == run;
    }
  }

  lemma HandsOnlyAtHand(handed: seq<Entry>, s: State, l: Label, id: nat)
    requires !WasHanded(handed, id) && !IsAtHand(s, id) && Enabled(s, l)
    ensures !WasHanded(HandedAfter(handed, s, l), id)
  {
  }

  // ---- only after such a step ----

  /** A request given up prematurely, but neither handed out by then nor at hand, is never handed out. */
  lemma UnseenStaysUnseen(codec: Codec, run: seq<Label>, k: nat, id: nat)
    requires Exec(codec, run).Some? && PrematureAt(codec, run, k, id) && !VisibleAt(codec, run, k, id)
    ensures !WasHanded(HandedOut(codec, run), id)
  {
    hide HandedOut, Ever, IsCopy, IsAtHand;
    EveryRunKeepsInv(codec, run[..k]);
    StaysUnhanded(codec, run[..k], run, id);
  }

  /**
   * Over every run, whatever happened to other events: of two messages of one event that were handed out, in
   * one subscription or in several, the request of one was given up while it was handed out or at hand.
   */
  lemma SecondMessageWasGivenUp(codec: Codec, run: seq<Label>, d: Entry, e: Entry) returns (k: nat)
    requires Exec(codec, run).Some? && d in HandedOut(codec, run) && e in HandedOut(codec, run)
    requires d != e && d.request.origin == e.request.origin
    ensures VisibleAt(codec, run, k, d.request.id) || VisibleAt(codec, run, k, e.request.id)
  {
    hide Exec, Ever, HandedOut, Copies, PrematureAt, VisibleAt;
    var ever, s := Ever(codec, run), Exec(codec, run).value;
    EveryRunKeepsEver(codec, run);
    EntryIsCopy(ever, s, d);
    EntryIsCopy(ever, s, e);
    if d.request == e.request {
      EntryOfRequest(ever, s, d, e);
    }
    k := SecondCopyWasGivenUp(codec, run, d.request, e.request);
    var id := if PrematureAt(codec, run, k, d.request.id) then d.request.id else e.request.id;
    if !VisibleAt(codec, run, k, id) {
      UnseenStaysUnseen(codec, run, k, id);
      assert false;
    }
  }

  /** So an event none of whose requests is given up like that is handed out as one message. */
  lemma DiscreetEventIsOneMessage(codec: Codec, run: seq<Label>, event: nat)
    requires Exec(codec, run).Some? && Discreet(codec, run, 0, event)
    ensures !HandedAsTwo(HandedOut(codec, run), event)
  {
    hide Exec, Ever, HandedOut, Copies, GivesUpVisible;
    var ever, handed, s := Ever(codec, run), HandedOut(codec, run), Exec(codec, run).value;
    EveryRunKeepsEver(codec, run);
    forall d, e | d in handed && e in handed && d.request.origin == e.request.origin == event ensures d == e {
      if d != e {
        var k := SecondMessageWasGivenUp(codec, run, d, e);
        var given := if VisibleAt(codec, run, k, d.request.id) then d else e;
        EntryIsCopy(ever, s, given);
        VisibleAwaits(HandedOut(codec, run[..k]), Exec(codec, run[..k]).value, run[k]);
        AwaitedIsInFlight(codec, run, k, given.request);
        assert false;
      }
    }
  }

  lemma VisibleAwaits(handed: seq<Entry>, s: State, l: Label)
    requires GivesUpVisible(handed, s, l)
    ensures s.publisher.Busy?
  {
  }

  // ---- after such a step it can happen ----

  /** Of the requests under way, those up to the `k`-th are stored, in order. */
  lemma ServesUpTo(codec: Codec, run: seq<Label>, s: State, k: nat) returns (more: seq<Label>, t: State)
    requires Exec(codec, run) == Some(s) && Retries(s) && s.stream.Some? && k < |s.network|
    ensures Continues(run, more) && Exec(codec, more) == Some(t) && SameEvent(s, t) && Retries(t)
    ensures t.stream.Some? && t.stream.value.entries != [] && Last(t).request == s.network[k]
    decreases k
  {
    hide Exec;
    var r := s.network[0];
    more, t := Step(codec, run, s, Serve(0));
    if k > 0 {
      more, t := ServesUpTo(codec, more, t, k - 1);
    }
  }

  /** A message of the stream is handed to a new subscription. */
  lemma HandsOut(codec: Codec, run: seq<Label>, s: State, i: nat) returns (more: seq<Label>, t: State)
    requires Exec(codec, run) == Some(s) && Retries(s) && s.stream.Some? && i < |s.stream.value.entries|
    ensures Continues(run, more) && Exec(codec, more) == Some(t) && Retries(t) && t.stream.Some?
    ensures t.handled == s.handled && t.sent == s.sent && s.stream.value.entries[i] in t.delivered
  {
    hide Exec, Inv;
    EntryMayBeNext(codec, run, s, i);
    more, t := Step(codec, run, s, Attach(s.stream.value.entries[i].sequence));
    more, t := DeliversOne(codec, more, t, i);
  }

  lemma EntryMayBeNext(codec: Codec, run: seq<Label>, s: State, i: nat)
    requires Exec(codec, run) == Some(s) && s.stream.Some? && i < |s.stream.value.entries|
    ensures MayDeliver(s.stream.value.entries, s.stream.value.entries[i].sequence, i)
    ensures s.stream.value.entries[i].sequence <= |s.stream.value.stored|
  {
    EveryRunKeepsInv(codec, run);
  }

  /** A request at hand under the awaited id is of the event in flight. */
  lemma AtHandIsAwaited(codec: Codec, run: seq<Label>, s: State, r: Request)
    requires Exec(codec, run) == Some(s) && s.publisher.Busy? && s.publisher.awaiting == Some(r.id)
    requires r in s.network || (s.stream.Some? && exists e | e in s.stream.value.entries :: e.request == r)
    ensures r.id < |s.sent| && r.origin == |s.handled|
  {
    EveryRunKeepsInv(codec, run);
    if r in s.network {
      assert r in Wire(s);
    } else {
      var i :| 0 <= i < |s.stream.value.entries| && s.stream.value.entries[i].request == r;
      assert EntryOf(s.stream.value, s.stream.value.entries[i]);
      assert r in Wire(s);
    }
    var i :| 0 <= i < |Wire(s)| && Wire(s)[i] == r;
    assert WasSent(s.sent, Wire(s)[i]);
  }

  /** The request given up is handed out while it is at hand. */
  lemma HandsOutGivenUp(codec: Codec, run: seq<Label>, l: Label) returns (more: seq<Label>, t: State, d: Entry)
    requires Exec(codec, run).Some? && Enabled(Exec(codec, run).value, l) && GivesUpRequest(Exec(codec, run).value, l)
    requires IsAtHand(Exec(codec, run).value, Exec(codec, run).value.publisher.awaiting.value)
    ensures Continues(run + [l], more) && Exec(codec, more) == Some(t) && Retries(t) && t.stream.Some?
    ensures var s := Exec(codec, run).value;
            && t.handled == s.handled && t.sent == s.sent && d in t.delivered
            && d.request.id < |s.sent| && d.request.origin == |s.handled|
  {
    hide Exec;
    var s := Exec(codec, run).value;
    var id := s.publisher.awaiting.value;
    more, t := GivesUp(codec, run, s, l);
    var i: nat;
    if r :| r in s.network && r.id == id {
      var k :| 0 <= k < |s.network| && s.network[k] == r;
      more, t := ServesUpTo(codec, more, t, k);
      i := |t.stream.value.entries| - 1;
    } else {
      i :| 0 <= i < |s.stream.value.entries| && s.stream.value.entries[i].request.id == id;
    }
    d := t.stream.value.entries[i];
    AtHandIsAwaited(codec, run, s, d.request);
    more, t := HandsOut(codec, more, t, i);
  }

  /** From every reachable state such a step can be followed by a second message of the event being handed out. */
  lemma VisibleRetryHandsOutTwice(codec: Codec, run: seq<Label>, l: Label) returns (more: seq<Label>)
    requires Exec(codec, run).Some? && Enabled(Exec(codec, run).value, l)
    requires GivesUpVisible(HandedOut(codec, run), Exec(codec, run).value, l)
    ensures Continues(run + [l], more) && Exec(codec, more).Some?
    ensures HandedAsTwo(HandedOut(codec, more), |Exec(codec, run).value.handled|)
  {
    hide Exec, HandedOut, Ever, IsAtHand;
    var s := Exec(codec, run).value;
    var t, d, e;
    if WasHanded(HandedOut(codec, run), s.publisher.awaiting.value) {
      d :| d in HandedOut(codec, run) && d.request.id == s.publisher.awaiting.value;
      more, t, e := PrematureRetryDeliversTwice(codec, run, l, d);
    } else {
      var first, s1, s2, s3;
      first, s1, d := HandsOutGivenUp(codec, run, l);
      DeliveredIsHanded(codec, first, s1, d);
      more, s2 := Drains(codec, first, s1);
      if s2.consumer.Some? {
        BehindCursor(codec, more, s2);
      }
      more, s3 := Resends(codec, more, s2);
      e := Last(s3);
      more, t := HandsOutLast(codec, more, s3);
      HandedStays(codec, first, more, t, d, e);
    }
    assert d in HandedOut(codec, more) && e in HandedOut(codec, more) && d.request != e.request;
  }

  /** The run goes on from `run`, without such steps for the event, until it was handed out as two messages. */
  ghost predicate LeadsToSecondMessage(codec: Codec, run: seq<Label>, more: seq<Label>, event: nat) {
    && run <= more && Discreet(codec, more, |run|, event)
    && Exec(codec, more).Some? && HandedAsTwo(HandedOut(codec, more), event)
  }

  /**
   * For any run and any event of which nothing was given up like that so far, a next step can be followed,
   * without such a step for the event, until the event was handed out as two messages if and only if it gives
   * up, with retries left, a request of the event that was handed out or is at hand.
   */
  lemma HandedTwiceExactlyAfterVisibleRetry(codec: Codec, run: seq<Label>, l: Label, event: nat)
    requires Exec(codec, run).Some? && Discreet(codec, run, 0, event) && Enabled(Exec(codec, run).value, l)
    ensures var s := Exec(codec, run).value;
            GivesUpVisible(HandedOut(codec, run), s, l) && |s.handled| == event
            <==> exists more :: LeadsToSecondMessage(codec, run + [l], more, event)
  {
    hide Exec, HandedOut, Discreet, Enabled, GivesUpVisible, HandedAsTwo;
    if GivesUpVisible(HandedOut(codec, run), Exec(codec, run).value, l) && |Exec(codec, run).value.handled| == event {
      var more := VisibleRetryHandsOutTwice(codec, run, l);
      ContinuesDiscreetly(codec, run + [l], more, event);
      assert LeadsToSecondMessage(codec, run + [l], more, event);
    } else if more :| LeadsToSecondMessage(codec, run + [l], more, event) {
      DiscreetOnward(codec, run, l, more, event);
      DiscreetEventIsOneMessage(codec, more, event);
    }
  }

  lemma ContinuesDiscreetly(codec: Codec, run: seq<Label>, more: seq<Label>, event: nat)
    requires Continues(run, more)
    ensures Discreet(codec, more, |run|, event)
  {
    hide Exec, HandedOut, WasHanded, IsAtHand;
  }

  lemma DiscreetOnward(codec: Codec, run: seq<Label>, l: Label, more: seq<Label>, event: nat)
    requires Exec(codec, run).Some? && Discreet(codec, run, 0, event)
    requires |Exec(codec, run).value.handled| == event ==>
               !GivesUpVisible(HandedOut(codec, run), Exec(codec, run).value, l)
    requires run + [l] <= more && Discreet(codec, more, |run| + 1, event)
    ensures Discreet(codec, more, 0, event)
  {
    hide Exec, HandedOut, GivesUpVisible;
    assert more[..|run|] == run && more[|run|] == l;
    forall k | 0 <= k < |run| ensures more[..k] == run[..k] && more[k] == run[k] {
    }
  }
}
