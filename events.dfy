/** The shared event model of both pages: the DockEvent record, the text of
    the temporary ids given to optimistic entries, the keys of the
    duplicate-delivery guard and the ack update both pages apply. */
module Events {
  import opened Decimal

  datatype Option<T> = None | Some(value: T)

  datatype Status = Sent | Acked

  /** A dock-completion record (src/types/index.ts). Timestamps are
      milliseconds since the epoch; None stands for null. */
  datatype DockEvent = DockEvent(
    id: string,
    dockSetId: int,
    dockNo: int,
    status: Status,
    createdAt: Option<int>,
    ackedAt: Option<int>)

  datatype DockSet = DockSet(id: int, name: string, dockFrom: int, dockTo: int)

  /** Messages a page emits to the broker, recorded in order. */
  datatype Outgoing =
    | DockDone(dockSetId: int, dockNo: int, clientRequestId: string)
    | AckEvent(eventId: string, clientRequestId: string)
    | SyncRequest(limit: int)

  /** A consistent record: `ackedAt` is present exactly when the event is acked. */
  predicate WellFormed(e: DockEvent) {
    (e.status == Acked) == e.ackedAt.Some?
  }

  predicate AllWellFormed(view: seq<DockEvent>) {
    forall i :: 0 <= i < |view| ==> WellFormed(view[i])
  }

  /** `String.prototype.startsWith`. */
  predicate StartsWith(s: string, prefix: string) {
    |prefix| <= |s| && s[..|prefix|] == prefix
  }

  /** `temp-<setId>-<dockNo>-`, the prefix the replacement test looks for. */
  function TempPrefix(setId: int, dockNo: int): string {
    "temp-" + IntToString(setId) + "-" + IntToString(dockNo) + "-"
  }

  /** `temp-<setId>-<dockNo>-<stamp>`, the id of an optimistic entry. */
  function TempId(setId: int, dockNo: int, stamp: int): string {
    TempPrefix(setId, dockNo) + IntToString(stamp)
  }

  /** `temp-<a>-<d>-...` determines its two integer texts. */
  lemma TempTextSplit(a: string, d: string, rest: string, a': string, d': string, t: string)
    requires IsIntText(a) && IsIntText(d) && IsIntText(a') && IsIntText(d')
    requires "temp-" + a + "-" + d + "-" + rest == "temp-" + a' + "-" + d' + "-" + t
    ensures a == a' && d == d'
  {
    var x := "temp-" + a + "-" + d + "-" + rest;
    assert x[5..] == a + "-" + (d + "-" + rest);
    assert x[5..] == a' + "-" + (d' + "-" + t);
    UniqueSplit(a, a', d + "-" + rest, d' + "-" + t);
    UniqueSplit(d, d', rest, t);
  }

  /** The prefix test accepts a temporary id exactly when it was made for the
      same dock set and dock number, whatever the time stamp. */
  lemma TempIdPrefixIff(setId: int, dockNo: int, setId': int, dockNo': int, stamp: int)
    ensures StartsWith(TempId(setId', dockNo', stamp), TempPrefix(setId, dockNo))
            <==> setId == setId' && dockNo == dockNo'
  {
    var p := TempPrefix(setId, dockNo);
    var x := TempId(setId', dockNo', stamp);
    if setId == setId' && dockNo == dockNo' {
      assert x[..|p|] == p;
    }
    if StartsWith(x, p) {
      var rest := x[|p|..];
      assert x == p + rest;
      TempTextSplit(IntToString(setId), IntToString(dockNo), rest,
                    IntToString(setId'), IntToString(dockNo'), IntToString(stamp));
      IntToStringInjective(setId, setId');
      IntToStringInjective(dockNo, dockNo');
    }
  }

  /** Every temporary id begins with `temp-`. */
  lemma TempIdIsTemp(setId: int, dockNo: int, stamp: int)
    ensures StartsWith(TempId(setId, dockNo, stamp), "temp-")
  {
    var x := TempId(setId, dockNo, stamp);
    assert x == "temp-" + x[5..];
  }

  /** `${Date.now()}-${Math.random()}`: the time stamp's text, a dash and the
      text of a random number, which the model takes as given. */
  function RequestId(stamp: int, nonce: string): string {
    IntToString(stamp) + "-" + nonce
  }

  /** Key under which an ack notification is remembered by the guard. */
  function AckKey(eventId: string): string {
    "acked-" + eventId
  }

  function AckOne(e: DockEvent, eventId: string, ackedAt: int): DockEvent {
    if e.id == eventId then e.(status := Acked, ackedAt := Some(ackedAt)) else e
  }

  /** The ack updater both pages apply: every entry with the acked id becomes
      acked at `ackedAt`; every other entry, and the order, stay as they are. */
  function MarkAcked(view: seq<DockEvent>, eventId: string, ackedAt: int): (r: seq<DockEvent>)
    ensures |r| == |view|
    ensures forall i :: 0 <= i < |view| && view[i].id == eventId ==>
              r[i] == view[i].(status := Acked, ackedAt := Some(ackedAt))
    ensures forall i :: 0 <= i < |view| && view[i].id != eventId ==> r[i] == view[i]
  {
    if view == [] then [] else [AckOne(view[0], eventId, ackedAt)] + MarkAcked(view[1..], eventId, ackedAt)
  }

  /** An ack for an id the view does not hold is dropped. */
  lemma MarkAckedAbsent(view: seq<DockEvent>, eventId: string, ackedAt: int)
    requires forall i :: 0 <= i < |view| ==> view[i].id != eventId
    ensures MarkAcked(view, eventId, ackedAt) == view
  {
  }

  /** Acking again at the same time changes nothing; a later ack time would
      overwrite the earlier one, which is why the guard below matters. */
  lemma MarkAckedTwice(view: seq<DockEvent>, eventId: string, t1: int, t2: int)
    ensures MarkAcked(MarkAcked(view, eventId, t1), eventId, t2) == MarkAcked(view, eventId, t2)
  {
    var twice := MarkAcked(MarkAcked(view, eventId, t1), eventId, t2);
    assert forall i :: 0 <= i < |view| ==> twice[i] == MarkAcked(view, eventId, t2)[i];
  }

  lemma MarkAckedWellFormed(view: seq<DockEvent>, eventId: string, ackedAt: int)
    requires AllWellFormed(view)
    ensures AllWellFormed(MarkAcked(view, eventId, ackedAt))
  {
  }

  /** The reconciled state of one page: its list and its guard set. */
  datatype Session = Session(view: seq<DockEvent>, processed: set<string>)

  /** An `event_acked` notification, identical on both pages: a notification
      whose key was seen already is ignored; otherwise its key is recorded and
      the view is acked. */
  function OnAcked(s: Session, eventId: string, ackedAt: int): Session {
    if AckKey(eventId) in s.processed then s
    else Session(MarkAcked(s.view, eventId, ackedAt), s.processed + {AckKey(eventId)})
  }

  /** Duplicate delivery: a second ack for the same id, whatever its time,
      leaves the state as the first one left it. */
  lemma OnAckedFirstWins(s: Session, eventId: string, t1: int, t2: int)
    ensures OnAcked(OnAcked(s, eventId, t1), eventId, t2) == OnAcked(s, eventId, t1)
  {
  }

  /** A fresh ack adds exactly its key, keeps the length, and touches only
      the entries carrying the acked id; an absent id changes no entry. */
  lemma OnAckedEffect(s: Session, eventId: string, ackedAt: int)
    requires AckKey(eventId) !in s.processed
    ensures OnAcked(s, eventId, ackedAt).processed == s.processed + {AckKey(eventId)}
    ensures |OnAcked(s, eventId, ackedAt).view| == |s.view|
    ensures forall i :: 0 <= i < |s.view| ==>
              OnAcked(s, eventId, ackedAt).view[i] ==
                (if s.view[i].id == eventId then s.view[i].(status := Acked, ackedAt := Some(ackedAt)) else s.view[i])
    ensures (forall i :: 0 <= i < |s.view| ==> s.view[i].id != eventId) ==>
              OnAcked(s, eventId, ackedAt).view == s.view
  {
    if forall i :: 0 <= i < |s.view| ==> s.view[i].id != eventId {
      MarkAckedAbsent(s.view, eventId, ackedAt);
    }
  }
}
