/** The admin page: the dock-set reference data, the dock buttons it offers,
    the bootstrap load of recent events, the optimistic entry a dock click
    adds, and its reconciliation of creation and ack notifications into a
    list of at most 20 entries. */
module AdminPage {
  import opened Events

  /** The view holds at most this many entries. */
  const RecentLimit: nat := 20

  /** A temporary entry and a canonical event match when their creation
      times are less than this many milliseconds apart. */
  const MatchWindowMs: int := 10000

  const DockSets: seq<DockSet> := [
    DockSet(1, "1번 대형 (32~41)", 32, 41),
    DockSet(2, "2번 대형 (22~31)", 22, 31)
  ]

  /** Dock numbers not offered, per dock set id. */
  const ExcludedDocks: map<int, seq<int>> := map[1 := [39], 2 := [27]]

  function Min(a: int, b: int): int {
    if a <= b then a else b
  }

  function Abs(x: int): nat {
    if x < 0 then -x else x
  }

  // ---------------------------------------------------------------------
  // Dock buttons

  datatype DockButton = DockButton(dockNo: int, disabled: bool)

  /** `EXCLUDED_DOCKS[id] || []`. */
  function ExcludedFor(setId: int): seq<int> {
    if setId in ExcludedDocks then ExcludedDocks[setId] else []
  }

  /** The dock numbers of `[lo, hi]` not in `excluded`, ascending. */
  function DocksUpTo(lo: int, hi: int, excluded: seq<int>): seq<int>
    decreases hi - lo
  {
    if hi < lo then [] else DocksUpTo(lo, hi - 1, excluded) + (if hi in excluded then [] else [hi])
  }

  function OfferedDocks(d: DockSet): seq<int> {
    DocksUpTo(d.dockFrom, d.dockTo, ExcludedFor(d.id))
  }

  /** The offered numbers are exactly the range minus the exclusions, in
      strictly ascending order. */
  lemma {:induction false} DocksUpToSpec(lo: int, hi: int, excluded: seq<int>)
    ensures forall x :: x in DocksUpTo(lo, hi, excluded) <==> lo <= x <= hi && x !in excluded
    ensures forall i, j :: 0 <= i < j < |DocksUpTo(lo, hi, excluded)| ==>
              DocksUpTo(lo, hi, excluded)[i] < DocksUpTo(lo, hi, excluded)[j]
    decreases hi - lo
  {
    if lo <= hi {
      DocksUpToSpec(lo, hi - 1, excluded);
      var r := DocksUpTo(lo, hi - 1, excluded);
      forall i | 0 <= i < |r| ensures r[i] < hi {
        assert r[i] in DocksUpTo(lo, hi - 1, excluded);
      }
    }
  }

  lemma OfferedDocksExamples()
    ensures OfferedDocks(DockSets[0]) == [32, 33, 34, 35, 36, 37, 38, 40, 41]
    ensures OfferedDocks(DockSets[1]) == [22, 23, 24, 25, 26, 28, 29, 30, 31]
  {
  }

  /** `generateDockButtons`: one button per offered dock number, in order,
      each disabled exactly when the page is disconnected. */
  method GenerateDockButtons(d: DockSet, connected: bool) returns (buttons: seq<DockButton>)
    ensures |buttons| == |OfferedDocks(d)|
    ensures forall k :: 0 <= k < |buttons| ==> buttons[k] == DockButton(OfferedDocks(d)[k], !connected)
    ensures forall k :: 0 <= k < |buttons| ==>
              d.dockFrom <= buttons[k].dockNo <= d.dockTo && buttons[k].dockNo !in ExcludedFor(d.id)
    ensures forall k, m :: 0 <= k < m < |buttons| ==> buttons[k].dockNo < buttons[m].dockNo
  {
    var excluded := ExcludedFor(d.id);
    buttons := [];
    var i := d.dockFrom;
    while i <= d.dockTo
      invariant i == d.dockFrom || d.dockFrom < i <= d.dockTo + 1
      invariant |buttons| == |DocksUpTo(d.dockFrom, i - 1, excluded)|
      invariant forall k :: 0 <= k < |buttons| ==>
                  buttons[k] == DockButton(DocksUpTo(d.dockFrom, i - 1, excluded)[k], !connected)
      decreases d.dockTo - i
    {
      if i in excluded {
        i := i + 1;
        continue;
      }
      buttons := buttons + [DockButton(i, !connected)];
      i := i + 1;
    }
    DocksUpToSpec(d.dockFrom, d.dockTo, excluded);
    assert forall k :: 0 <= k < |buttons| ==> buttons[k].dockNo in OfferedDocks(d);
  }

  // ---------------------------------------------------------------------
  // Bootstrap load

  /** A `dock_events` row as the database returns it. */
  datatype Row = Row(
    id: string,
    dock_set_id: int,
    dock_no: int,
    status: Status,
    created_at: Option<int>,
    acked_at: Option<int>)

  /** The outcome of the recent-events query: its `data` (possibly null) or an error. */
  datatype QueryResult = QueryData(data: Option<seq<Row>>) | QueryError

  function FromRow(r: Row): DockEvent {
    DockEvent(r.id, r.dock_set_id, r.dock_no, r.status, r.created_at, r.acked_at)
  }

  function ToRow(e: DockEvent): Row {
    Row(e.id, e.dockSetId, e.dockNo, e.status, e.createdAt, e.ackedAt)
  }

  /** The field renaming loses nothing in either direction. */
  lemma RowRoundTrip(r: Row, e: DockEvent)
    ensures ToRow(FromRow(r)) == r
    ensures FromRow(ToRow(e)) == e
  {
  }

  /** `data.map(...)`: one event per row, in row order. */
  function FromRows(rows: seq<Row>): (events: seq<DockEvent>)
    ensures |events| == |rows|
    ensures forall i :: 0 <= i < |rows| ==> ToRow(events[i]) == rows[i]
  {
    if rows == [] then [] else [FromRow(rows[0])] + FromRows(rows[1..])
  }

  // ---------------------------------------------------------------------
  // Optimistic entries and the creation updater

  /** The placeholder a dock click adds before the broker confirms. */
  function TempEntry(setId: int, dockNo: int, stamp: int, nowMs: int): DockEvent {
    DockEvent(TempId(setId, dockNo, stamp), setId, dockNo, Sent, Some(nowMs), None)
  }

  /** The `findIndex` test: `entry` is a temporary entry for the dock of `e`
      created less than ten seconds from `e`. */
  predicate IsTempFor(entry: DockEvent, e: DockEvent) {
    && StartsWith(entry.id, TempPrefix(e.dockSetId, e.dockNo))
    && entry.dockNo == e.dockNo
    && entry.dockSetId == e.dockSetId
    && entry.createdAt.Some? && e.createdAt.Some?
    && Abs(entry.createdAt.value - e.createdAt.value) < MatchWindowMs
  }

  /** `findIndex`: the first index whose entry is a temporary entry for `e`, or -1. */
  function FindTemp(view: seq<DockEvent>, e: DockEvent): (k: int)
    ensures -1 <= k < |view|
    ensures k == -1 <==> forall i :: 0 <= i < |view| ==> !IsTempFor(view[i], e)
    ensures k >= 0 ==> IsTempFor(view[k], e) && forall i :: 0 <= i < k ==> !IsTempFor(view[i], e)
  {
    if view == [] then -1
    else if IsTempFor(view[0], e) then 0
    else
      var k := FindTemp(view[1..], e);
      if k == -1 then -1 else k + 1
  }

  /** `[x, ...view.slice(0, 19)]`: `x` first, then the newest entries of
      `view`, dropping only what exceeds the limit. */
  function PrependCapped(view: seq<DockEvent>, x: DockEvent): (r: seq<DockEvent>)
    ensures |r| == Min(|view| + 1, RecentLimit)
    ensures r[0] == x
    ensures forall i :: 1 <= i < |r| ==> r[i] == view[i - 1]
  {
    [x] + view[..Min(RecentLimit - 1, |view|)]
  }

  /** The creation updater: swap the first matching temporary entry for the
      canonical event, or else prepend it. */
  function MergeCreated(view: seq<DockEvent>, e: DockEvent): (r: seq<DockEvent>)
    ensures |view| <= RecentLimit ==> |r| <= RecentLimit
    ensures e in r
  {
    var k := FindTemp(view, e);
    if k != -1 then assert view[k := e][k] == e; view[k := e] else PrependCapped(view, e)
  }

  /** With a matching temporary entry, exactly the first one is replaced in
      place; the length and every other index are unchanged. */
  lemma MergeReplacesFirstTemp(view: seq<DockEvent>, e: DockEvent, k: nat)
    requires k < |view| && IsTempFor(view[k], e)
    requires forall i :: 0 <= i < k ==> !IsTempFor(view[i], e)
    ensures |MergeCreated(view, e)| == |view|
    ensures MergeCreated(view, e)[k] == e
    ensures forall i :: 0 <= i < |view| && i != k ==> MergeCreated(view, e)[i] == view[i]
  {
  }

  /** Without one, the event goes first and the view is cut to 20. */
  lemma MergePrependsOtherwise(view: seq<DockEvent>, e: DockEvent)
    requires forall i :: 0 <= i < |view| ==> !IsTempFor(view[i], e)
    ensures MergeCreated(view, e) == [e] + view[..Min(RecentLimit - 1, |view|)]
    ensures |MergeCreated(view, e)| <= RecentLimit
  {
  }

  lemma StartsWithTrans(s: string, p: string, q: string)
    requires StartsWith(s, p) && StartsWith(p, q)
    ensures StartsWith(s, q)
  {
    assert s[..|q|] == s[..|p|][..|q|];
  }

  /** Only ids beginning `temp-` are ever replaced, so a canonical event in
      the view is never overwritten by another. */
  lemma FindTempOnlyTemp(view: seq<DockEvent>, e: DockEvent)
    ensures FindTemp(view, e) >= 0 ==> StartsWith(view[FindTemp(view, e)].id, "temp-")
  {
    var k := FindTemp(view, e);
    if k >= 0 {
      var p := TempPrefix(e.dockSetId, e.dockNo);
      assert p[..5] == "temp-";
      StartsWithTrans(view[k].id, p, "temp-");
    }
  }

  /** A placeholder matches a canonical event exactly when the event is for
      the same dock set and dock number and was created within the window. */
  lemma TempEntryMatchesIff(setId: int, dockNo: int, stamp: int, nowMs: int, e: DockEvent)
    ensures IsTempFor(TempEntry(setId, dockNo, stamp, nowMs), e) <==>
              && e.dockSetId == setId && e.dockNo == dockNo
              && e.createdAt.Some? && Abs(nowMs - e.createdAt.value) < MatchWindowMs
  {
    TempIdPrefixIff(e.dockSetId, e.dockNo, setId, dockNo, stamp);
  }

  /** Click, then confirmation within the window: the placeholder at the
      front is replaced by the canonical event, so the dock appears once. */
  lemma ClickThenConfirm(view: seq<DockEvent>, setId: int, dockNo: int, stamp: int, nowMs: int, e: DockEvent)
    requires e.dockSetId == setId && e.dockNo == dockNo
    requires e.createdAt.Some? && Abs(nowMs - e.createdAt.value) < MatchWindowMs
    ensures var clicked := PrependCapped(view, TempEntry(setId, dockNo, stamp, nowMs));
            MergeCreated(clicked, e) == clicked[0 := e]
  {
    TempEntryMatchesIff(setId, dockNo, stamp, nowMs, e);
  }

  /** The updater keeps the record invariant. */
  lemma MergeWellFormed(view: seq<DockEvent>, e: DockEvent)
    requires AllWellFormed(view) && WellFormed(e)
    ensures AllWellFormed(MergeCreated(view, e))
  {
  }

  // ---------------------------------------------------------------------
  // The page's handlers on a state value

  /** A `dock_event_created` notification on the admin page. */
  function OnCreated(s: Session, e: DockEvent): Session {
    if e.id in s.processed then s else Session(MergeCreated(s.view, e), s.processed + {e.id})
  }

  /** Duplicate delivery of a creation notification is absorbed. */
  lemma OnCreatedIdempotent(s: Session, e: DockEvent)
    ensures OnCreated(OnCreated(s, e), e) == OnCreated(s, e)
    ensures e.id in s.processed ==> OnCreated(s, e) == s
  {
  }

  /** The end-to-end run on one admin page: a click on a dock, the broker's
      confirmation within the window, then its ack. The view ends with the
      canonical event, acked, where the placeholder was. */
  lemma ClickConfirmAck(s: Session, setId: int, dockNo: int, stamp: int, nowMs: int, e: DockEvent, ackedAt: int)
    requires e.id !in s.processed && AckKey(e.id) !in s.processed
    requires e.dockSetId == setId && e.dockNo == dockNo
    requires e.createdAt.Some? && Abs(nowMs - e.createdAt.value) < MatchWindowMs
    ensures var clicked := Session(PrependCapped(s.view, TempEntry(setId, dockNo, stamp, nowMs)), s.processed);
            var done := OnAcked(OnCreated(clicked, e), e.id, ackedAt);
            && |done.view| == |clicked.view|
            && done.view[0] == e.(status := Acked, ackedAt := Some(ackedAt))
            && done.processed == s.processed + {e.id, AckKey(e.id)}
  {
    var clicked := Session(PrependCapped(s.view, TempEntry(setId, dockNo, stamp, nowMs)), s.processed);
    ClickThenConfirm(s.view, setId, dockNo, stamp, nowMs, e);
    assert OnCreated(clicked, e).view == clicked.view[0 := e];
  }

  // ---------------------------------------------------------------------
  // The page's state

  class AdminReconciler {
    var selected: DockSet
    var view: seq<DockEvent>
    var processed: set<string>
    var outbox: seq<Outgoing>

    ghost predicate Valid()
      reads this
    {
      |view| <= RecentLimit
    }

    function State(): Session
      reads this
    {
      Session(view, processed)
    }

    constructor ()
      ensures Valid()
      ensures selected == DockSets[0] && view == [] && processed == {} && outbox == []
    {
      selected := DockSets[0];
      view := [];
      processed := {};
      outbox := [];
    }

    method SelectDockSet(d: DockSet)
      requires Valid()
      modifies this`selected
      ensures Valid()
      ensures selected == d
    {
      selected := d;
    }

    /** `loadRecentEvents`: the rows, renamed field by field and in order;
        an empty list when the query fails or returns no data. The guard
        set is neither read nor changed. */
    method LoadRecentEvents(q: QueryResult)
      requires q.QueryData? && q.data.Some? ==> |q.data.value| <= RecentLimit
      modifies this`view
      ensures Valid()
      ensures q.QueryError? ==> view == []
      ensures q.QueryData? && q.data.None? ==> view == []
      ensures q.QueryData? && q.data.Some? ==>
                |view| == |q.data.value| && forall i :: 0 <= i < |view| ==> ToRow(view[i]) == q.data.value[i]
    {
      match q
      case QueryError =>
        view := [];
      case QueryData(data) =>
        var rows := if data.Some? then data.value else [];
        view := FromRows(rows);
    }

    method HandleEventCreated(e: DockEvent)
      requires Valid()
      modifies this`view, this`processed
      ensures Valid()
      ensures State() == OnCreated(old(State()), e)
    {
      if e.id in processed {
        return;
      }
      processed := processed + {e.id};
      view := MergeCreated(view, e);
    }

    method HandleEventAcked(eventId: string, ackedAt: int)
      requires Valid()
      modifies this`view, this`processed
      ensures Valid()
      ensures State() == OnAcked(old(State()), eventId, ackedAt)
    {
      if AckKey(eventId) in processed {
        return;
      }
      processed := processed + {AckKey(eventId)};
      view := MarkAcked(view, eventId, ackedAt);
    }

    /** `handleDockClick`: when disconnected nothing is emitted and the view
        stays; otherwise the completion request is emitted and a placeholder
        goes first. `stamp` is the clock read that names the placeholder and
        `nowMs` the one that dates it; `nonce` is the random part of the
        request id. */
    method HandleDockClick(dockNo: int, connected: bool, stamp: int, nowMs: int, nonce: string)
      requires Valid()
      modifies this`view, this`outbox
      ensures Valid()
      ensures !connected ==> view == old(view) && outbox == old(outbox)
      ensures connected ==> outbox == old(outbox) + [DockDone(selected.id, dockNo, RequestId(stamp, nonce))]
      ensures connected ==> view == PrependCapped(old(view), TempEntry(selected.id, dockNo, stamp, nowMs))
    {
      if !connected {
        return;
      }
      outbox := outbox + [DockDone(selected.id, dockNo, RequestId(stamp, nonce))];
      var temp := TempEntry(selected.id, dockNo, stamp, nowMs);
      view := PrependCapped(view, temp);
    }
  }
}
