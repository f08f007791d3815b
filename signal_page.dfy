/** The signal page: it bootstraps from a `sync_result` sorted newest first,
    prepends confirmed events without bound, applies acks, emits ack requests
    without touching its own list, and shows its list split into unacked and
    acked events. */
module SignalPage {
  import opened Events
  import opened TimeOrder

  /** The number of events the page asks the broker for on connecting. */
  const SyncLimit: int := 50

  /** A `dock_event_created` notification on the signal page. */
  function OnCreated(s: Session, e: DockEvent): Session {
    if e.id in s.processed then s else Session([e] + s.view, s.processed + {e.id})
  }

  /** A processed id is ignored; a fresh one grows the list by exactly one,
      in front, with nothing dropped. */
  lemma OnCreatedEffect(s: Session, e: DockEvent)
    ensures e.id in s.processed ==> OnCreated(s, e) == s
    ensures e.id !in s.processed ==>
              && |OnCreated(s, e).view| == |s.view| + 1
              && OnCreated(s, e).view[0] == e
              && OnCreated(s, e).view[1..] == s.view
              && OnCreated(s, e).processed == s.processed + {e.id}
    ensures OnCreated(OnCreated(s, e), e) == OnCreated(s, e)
  {
    if e.id !in s.processed {
      assert OnCreated(s, e).view == [e] + s.view;
    }
  }

  /** The guard is fed by notifications only: an event already shown
      because a sync returned it, but never notified, is shown again when
      its creation notification arrives. */
  lemma SyncedEventNotifiedAgain(s: Session, e: DockEvent)
    requires e in s.view && e.id !in s.processed
    ensures multiset(OnCreated(s, e).view)[e] == multiset(s.view)[e] + 1
    ensures multiset(OnCreated(s, e).view)[e] >= 2
  {
    assert OnCreated(s, e).view == [e] + s.view;
  }

  // ---------------------------------------------------------------------
  // The two lists the page shows

  /** `events.filter(event => event.status === st)`. */
  function WithStatus(events: seq<DockEvent>, st: Status): (r: seq<DockEvent>)
    ensures forall x :: x in r <==> x in events && x.status == st
    ensures |r| <= |events|
  {
    if events == [] then []
    else (if events[0].status == st then [events[0]] else []) + WithStatus(events[1..], st)
  }

  function UnackedEvents(events: seq<DockEvent>): seq<DockEvent> {
    WithStatus(events, Sent)
  }

  function AckedEvents(events: seq<DockEvent>): seq<DockEvent> {
    WithStatus(events, Acked)
  }

  /** `a` is `b` with some entries left out, the rest in the same order. */
  predicate IsSubsequence(a: seq<DockEvent>, b: seq<DockEvent>)
    decreases |b|
  {
    if a == [] then true
    else if b == [] then false
    else if a[0] == b[0] then IsSubsequence(a[1..], b[1..])
    else IsSubsequence(a, b[1..])
  }

  lemma {:induction false} WithStatusSubsequence(events: seq<DockEvent>, st: Status)
    ensures IsSubsequence(WithStatus(events, st), events)
  {
    if events != [] {
      WithStatusSubsequence(events[1..], st);
      var rest := WithStatus(events[1..], st);
      if events[0].status == st {
        assert WithStatus(events, st) == [events[0]] + rest;
        assert ([events[0]] + rest)[1..] == rest;
      } else {
        assert WithStatus(events, st) == rest;
        if rest != [] {
          assert rest[0] in rest;
          assert rest[0] != events[0];
        }
      }
    }
  }

  lemma {:induction false} PartitionCounts(events: seq<DockEvent>)
    ensures multiset(UnackedEvents(events)) + multiset(AckedEvents(events)) == multiset(events)
  {
    if events != [] {
      PartitionCounts(events[1..]);
      assert events == [events[0]] + events[1..];
    }
  }

  /** The unacked and acked lists split the page's events: every event is in
      exactly one of them, each keeps the page's order, and together they
      hold all of it. */
  lemma Partition(events: seq<DockEvent>)
    ensures |UnackedEvents(events)| + |AckedEvents(events)| == |events|
    ensures multiset(UnackedEvents(events)) + multiset(AckedEvents(events)) == multiset(events)
    ensures IsSubsequence(UnackedEvents(events), events)
    ensures IsSubsequence(AckedEvents(events), events)
    ensures forall x :: x in events ==> (x in UnackedEvents(events) <==> x !in AckedEvents(events))
  {
    WithStatusSubsequence(events, Sent);
    WithStatusSubsequence(events, Acked);
    PartitionCounts(events);
    assert |multiset(UnackedEvents(events)) + multiset(AckedEvents(events))| == |multiset(events)|;
  }

  /** After an ack is applied, no event with that id is still unacked. */
  lemma AckedLeavesUnacked(events: seq<DockEvent>, eventId: string, ackedAt: int)
    ensures forall x :: x in UnackedEvents(MarkAcked(events, eventId, ackedAt)) ==> x.id != eventId
  {
    var r := MarkAcked(events, eventId, ackedAt);
    forall x | x in UnackedEvents(r) ensures x.id != eventId {
      var i :| 0 <= i < |r| && r[i] == x;
    }
  }

  // ---------------------------------------------------------------------
  // The page's state

  class SignalReconciler {
    var events: seq<DockEvent>
    var processed: set<string>
    var outbox: seq<Outgoing>

    function State(): Session
      reads this
    {
      Session(events, processed)
    }

    constructor ()
      ensures events == [] && processed == {} && outbox == []
    {
      events := [];
      processed := {};
      outbox := [];
    }

    /** On connecting the page asks for the latest 50 events; nothing is
        sent while disconnected. */
    method RequestSync(connected: bool)
      modifies this`outbox
      ensures outbox == if connected then old(outbox) + [SyncRequest(SyncLimit)] else old(outbox)
    {
      if !connected {
        return;
      }
      outbox := outbox + [SyncRequest(SyncLimit)];
    }

    /** `handleSyncResult`: the payload is sorted in place, newest first, and
        becomes the list. The guard set is neither read nor changed. */
    method HandleSyncResult(payload: array<DockEvent>)
      modifies this`events, payload
      ensures payload[..] == SortedByTime(old(payload[..]))
      ensures events == payload[..]
      ensures processed == old(processed)
    {
      SortInPlace(payload);
      events := payload[..];
    }

    method HandleEventCreated(e: DockEvent)
      modifies this`events, this`processed
      ensures State() == OnCreated(old(State()), e)
    {
      if e.id in processed {
        return;
      }
      processed := processed + {e.id};
      events := [e] + events;
    }

    method HandleEventAcked(eventId: string, ackedAt: int)
      modifies this`events, this`processed
      ensures State() == OnAcked(old(State()), eventId, ackedAt)
    {
      if AckKey(eventId) in processed {
        return;
      }
      processed := processed + {AckKey(eventId)};
      events := MarkAcked(events, eventId, ackedAt);
    }

    /** `handleAckEvent`: emits the ack request when connected and nothing
        otherwise; the list waits for the broker's notification. */
    method HandleAckEvent(eventId: string, connected: bool, stamp: int, nonce: string)
      modifies this`outbox
      ensures outbox == if connected then old(outbox) + [AckEvent(eventId, RequestId(stamp, nonce))] else old(outbox)
    {
      if !connected {
        return;
      }
      outbox := outbox + [AckEvent(eventId, RequestId(stamp, nonce))];
    }
  }
}
