/** The order of a `sync_result` on the signal page: newest first by
    `createdAt`, a missing time counting as 0, ties kept in arrival order
    (the engine's sort is stable). SortedByTime is the reference
    definition; SortInPlace is the in-place sort the handler runs. */
module TimeOrder {
  import opened Events

  /** The comparator's key: `createdAt` in milliseconds, or 0 when null. */
  function SortKey(e: DockEvent): int {
    match e.createdAt
    case Some(t) => t
    case None => 0
  }

  /** Non-increasing by key. */
  predicate Sorted(s: seq<DockEvent>) {
    forall i, j :: 0 <= i < j < |s| ==> SortKey(s[i]) >= SortKey(s[j])
  }

  /** The entries of `s` whose key is `k`, in their order in `s`. */
  function WithKey(s: seq<DockEvent>, k: int): seq<DockEvent> {
    if s == [] then [] else (if SortKey(s[0]) == k then [s[0]] else []) + WithKey(s[1..], k)
  }

  /** Places `x` after every entry whose key is at least its own. */
  function Insert(s: seq<DockEvent>, x: DockEvent): seq<DockEvent> {
    if s == [] then [x]
    else if SortKey(s[0]) < SortKey(x) then [x] + s
    else [s[0]] + Insert(s[1..], x)
  }

  /** The stable descending sort of `s`. */
  function SortedByTime(s: seq<DockEvent>): seq<DockEvent>
    decreases |s|
  {
    if s == [] then [] else Insert(SortedByTime(s[..|s| - 1]), s[|s| - 1])
  }

  lemma {:induction false} InsertPermutes(s: seq<DockEvent>, x: DockEvent)
    ensures multiset(Insert(s, x)) == multiset(s) + multiset{x}
    ensures |Insert(s, x)| == |s| + 1
  {
    if s != [] && SortKey(s[0]) >= SortKey(x) {
      InsertPermutes(s[1..], x);
      assert s == [s[0]] + s[1..];
    }
  }

  lemma {:induction false} InsertSorted(s: seq<DockEvent>, x: DockEvent)
    requires Sorted(s)
    ensures Sorted(Insert(s, x))
  {
    if s != [] && SortKey(s[0]) >= SortKey(x) {
      InsertSorted(s[1..], x);
      InsertPermutes(s[1..], x);
      var r := Insert(s[1..], x);
      assert forall j :: 0 <= j < |r| ==> r[j] in multiset(s[1..]) + multiset{x};
      forall j | 0 <= j < |r| ensures SortKey(s[0]) >= SortKey(r[j]) {
        assert r[j] in multiset(s[1..]) + multiset{x};
        if r[j] != x {
          assert r[j] in s[1..];
        }
      }
    }
  }

  lemma {:induction false} WithKeyAppend(a: seq<DockEvent>, b: seq<DockEvent>, k: int)
    ensures WithKey(a + b, k) == WithKey(a, k) + WithKey(b, k)
  {
    if a != [] {
      WithKeyAppend(a[1..], b, k);
      assert (a + b)[1..] == a[1..] + b;
    } else {
      assert a + b == b;
    }
  }

  /** In a sorted list, `x` lands after every entry sharing its key. */
  lemma {:induction false} InsertStable(s: seq<DockEvent>, x: DockEvent, k: int)
    requires Sorted(s)
    ensures WithKey(Insert(s, x), k) == WithKey(s, k) + (if SortKey(x) == k then [x] else [])
  {
    if s == [] {
    } else if SortKey(s[0]) < SortKey(x) {
      if SortKey(x) == k {
        WithKeyNone(s, k);
      }
      assert WithKey([x] + s, k) == (if SortKey(x) == k then [x] else []) + WithKey(s, k) by {
        assert ([x] + s)[1..] == s;
      }
    } else {
      InsertStable(s[1..], x, k);
      assert ([s[0]] + Insert(s[1..], x))[1..] == Insert(s[1..], x);
    }
  }

  /** A sorted list whose first key is below k holds no entry with key k. */
  lemma {:induction false} WithKeyNone(s: seq<DockEvent>, k: int)
    requires Sorted(s)
    requires s != [] ==> SortKey(s[0]) < k
    ensures WithKey(s, k) == []
  {
    if s != [] {
      WithKeyNone(s[1..], k);
    }
  }

  /** The sync view is ordered newest first. */
  lemma {:induction false} SortedByTimeSorted(s: seq<DockEvent>)
    ensures Sorted(SortedByTime(s))
    decreases |s|
  {
    if s != [] {
      SortedByTimeSorted(s[..|s| - 1]);
      InsertSorted(SortedByTime(s[..|s| - 1]), s[|s| - 1]);
    }
  }

  /** The sync view holds exactly the payload's events. */
  lemma {:induction false} SortedByTimePermutes(s: seq<DockEvent>)
    ensures multiset(SortedByTime(s)) == multiset(s)
    ensures |SortedByTime(s)| == |s|
    decreases |s|
  {
    if s != [] {
      SortedByTimePermutes(s[..|s| - 1]);
      InsertPermutes(SortedByTime(s[..|s| - 1]), s[|s| - 1]);
      assert s == s[..|s| - 1] + [s[|s| - 1]];
    }
  }

  /** Events with equal keys keep their payload order. */
  lemma {:induction false} SortedByTimeStable(s: seq<DockEvent>, k: int)
    ensures WithKey(SortedByTime(s), k) == WithKey(s, k)
    decreases |s|
  {
    if s != [] {
      var init, last := s[..|s| - 1], s[|s| - 1];
      SortedByTimeStable(init, k);
      SortedByTimeSorted(init);
      InsertStable(SortedByTime(init), last, k);
      assert s == init + [last];
      WithKeyAppend(init, [last], k);
    }
  }

  /** Events created at 10:00:01, 10:00:05 and 10:00:03, arriving in that
      order, are listed 10:00:05, 10:00:03, 10:00:01. */
  lemma OrderExample(e1: DockEvent, e5: DockEvent, e3: DockEvent)
    requires e1.createdAt == Some(36001000)
    requires e5.createdAt == Some(36005000)
    requires e3.createdAt == Some(36003000)
    ensures SortedByTime([e1, e5, e3]) == [e5, e3, e1]
  {
    assert [e1, e5, e3][..2] == [e1, e5];
    assert [e1, e5][..1] == [e1];
    assert [e1][..0] == [];
    assert SortedByTime([e1]) == [e1];
    assert SortedByTime([e1, e5]) == Insert([e1], e5) == [e5, e1];
    assert [e5, e1][1..] == [e1];
    assert Insert([e1], e3) == [e3, e1];
    assert Insert([e5, e1], e3) == [e5] + Insert([e1], e3);
  }

  /** Inserting after the first `j` entries, where exactly those keep `x`
      behind them, is what Insert does. */
  lemma {:induction false} InsertAt(s: seq<DockEvent>, x: DockEvent, j: nat)
    requires j <= |s|
    requires forall i :: 0 <= i < j ==> SortKey(s[i]) >= SortKey(x)
    requires forall i :: j <= i < |s| ==> SortKey(s[i]) < SortKey(x)
    ensures Insert(s, x) == s[..j] + [x] + s[j..]
  {
    if j > 0 {
      InsertAt(s[1..], x, j - 1);
      assert s[1..][..j - 1] == s[1..j];
      assert s[..j] == [s[0]] + s[1..j];
      assert s[j..] == s[1..][j - 1..];
    } else if s != [] {
      assert s[j..] == s;
    }
  }

  /** The state the inner loop of InsertLast ends in is `Insert(sorted, x)`
      followed by the untouched rest. */
  lemma ShiftedIsInsert(arr: seq<DockEvent>, sorted: seq<DockEvent>, x: DockEvent, i: nat, j: nat)
    requires |sorted| == i < |arr| && j <= i && Sorted(sorted)
    requires forall k :: 0 <= k < j ==> arr[k] == sorted[k]
    requires arr[j] == x
    requires forall k :: j < k <= i ==> arr[k] == sorted[k - 1]
    requires j > 0 ==> SortKey(sorted[j - 1]) >= SortKey(x)
    requires forall k :: j <= k < i ==> SortKey(sorted[k]) < SortKey(x)
    ensures arr[..i + 1] == Insert(sorted, x)
  {
    forall k | 0 <= k < j ensures SortKey(sorted[k]) >= SortKey(x) {
      assert SortKey(sorted[k]) >= SortKey(sorted[j - 1]);
    }
    InsertAt(sorted, x, j);
    assert arr[..i + 1] == sorted[..j] + [x] + sorted[j..];
  }

  /** One pass of the insertion sort: moves `a[i]` back into the sorted
      prefix `a[..i]`, shifting the entries with smaller keys up by one. */
  method InsertLast(a: array<DockEvent>, i: nat)
    requires i < a.Length
    requires Sorted(a[..i])
    modifies a
    ensures a[..i + 1] == Insert(old(a[..i]), old(a[i]))
    ensures a[i + 1..] == old(a[i + 1..])
  {
    ghost var sorted := a[..i];
    var x := a[i];
    var j := i;
    while j > 0 && SortKey(a[j - 1]) < SortKey(x)
      invariant 0 <= j <= i
      invariant forall k :: 0 <= k < j ==> a[k] == sorted[k]
      invariant forall k :: j < k <= i ==> a[k] == sorted[k - 1]
      invariant forall k :: j <= k < i ==> SortKey(sorted[k]) < SortKey(x)
      invariant forall k :: i < k < a.Length ==> a[k] == old(a[k])
    {
      a[j] := a[j - 1];
      j := j - 1;
    }
    a[j] := x;
    ShiftedIsInsert(a[..], sorted, x, i, j);
  }

  /** `payload.events.sort(...)`: an insertion sort, which yields the same
      array as any stable sort with this comparator. */
  method SortInPlace(a: array<DockEvent>)
    modifies a
    ensures a[..] == SortedByTime(old(a[..]))
  {
    ghost var input := a[..];
    var i := 0;
    while i < a.Length
      invariant 0 <= i <= a.Length
      invariant a[..i] == SortedByTime(input[..i])
      invariant a[i..] == input[i..]
    {
      SortedByTimeSorted(input[..i]);
      assert a[i] == input[i];
      InsertLast(a, i);
      assert input[..i + 1] == input[..i] + [input[i]];
      i := i + 1;
    }
    assert a[..] == a[..a.Length];
    assert input == input[..a.Length];
  }
}
