/** The in-memory event store: a sorted list of audit events, paged by session with a cursor. */
module Timeline {
  import opened StableSort
  import opened Wrappers

  datatype Event = Event(eventId: string, traceId: string, sessionId: string, timestamp: string, payload: string)
  datatype Page = Page(items: seq<Event>, limit: nat, nextCursor: Option<string>, total: nat)

  /** A three-way comparison of strings such as `localeCompare`: a total preorder. Strings that
      compare as equal need not be equal. */
  type Collation = (string, string) -> int

  ghost predicate IsCollation(cmp: Collation) {
    && (forall a, b :: cmp(a, b) <= 0 <==> cmp(b, a) >= 0)
    && (forall a, b, c :: cmp(a, b) <= 0 && cmp(b, c) <= 0 ==> cmp(a, c) <= 0)
  }

  function EventSort(cmp: Collation, a: Event, b: Event): int {
    var t := cmp(a.timestamp, b.timestamp);
    if t != 0 then t else cmp(a.eventId, b.eventId)
  }

  function EventLe(cmp: Collation): (Event, Event) -> bool {
    (a, b) => EventSort(cmp, a, b) <= 0
  }

  lemma EventOrder(cmp: Collation)
    requires IsCollation(cmp)
    ensures TotalPreorder(EventLe(cmp))
  {
    forall a: Event, b: Event, c: Event | EventLe(cmp)(a, b) && EventLe(cmp)(b, c) ensures EventLe(cmp)(a, c) {
      var x, y, z := a.timestamp, b.timestamp, c.timestamp;
      assert cmp(x, y) <= 0 && cmp(y, z) <= 0 && cmp(x, z) <= 0;
      if cmp(x, z) == 0 {
        assert cmp(z, x) <= 0 && cmp(z, y) <= 0 && cmp(y, x) <= 0;
      }
    }
  }

  predicate ValidEvent(e: Event) {
    e.eventId != "" && e.timestamp != "" && e.sessionId != "" && e.traceId != ""
  }

  /** An event is rejected exactly if one of its four fields is empty. */
  lemma EventFields(e: Event)
    ensures ValidEvent(e) <==> "" !in {e.eventId, e.timestamp, e.sessionId, e.traceId}
  {}

  /** `toPositiveInt`; an argument that is no integer is `None`. */
  function ToPositiveInt(value: Option<int>, fallback: nat): (n: nat)
    requires fallback >= 1
    ensures n >= 1
  {
    if value.Some? && value.value > 0 then value.value else fallback
  }

  function Scope(events: seq<Event>, sessionId: string): (r: seq<Event>)
    ensures forall e :: e in r <==> e in events && e.sessionId == sessionId
  {
    Filter(events, (e: Event) => e.sessionId == sessionId)
  }

  /** `findIndex` by event id, from index `i` on. */
  function FindFrom(s: seq<Event>, id: string, i: nat): (r: int)
    requires i <= |s|
    ensures r == -1 || (i <= r < |s| && s[r].eventId == id)
    ensures forall k :: i <= k < |s| && (r == -1 || k < r) ==> s[k].eventId != id
    decreases |s| - i
  {
    if i == |s| then -1 else if s[i].eventId == id then i else FindFrom(s, id, i + 1)
  }

  function StartIndex(scoped: seq<Event>, cursor: Option<string>): (k: nat)
    ensures k <= |scoped|
  {
    if cursor.Some? && cursor.value != "" then FindFrom(scoped, cursor.value, 0) + 1 else 0
  }

  /** `s.slice(from, from + n)` */
  function Slice<T>(s: seq<T>, from: nat, n: nat): seq<T> {
    if from >= |s| then [] else if from + n <= |s| then s[from..from + n] else s[from..]
  }

  function PageOf(scoped: seq<Event>, cursor: Option<string>, limit: nat): Page
    requires limit >= 1
  {
    var items := Slice(scoped, StartIndex(scoped, cursor), limit);
    var next := if |items| == limit && items[|items| - 1].eventId != "" then Some(items[|items| - 1].eventId) else None;
    Page(items, limit, next, |scoped|)
  }

  /** The store after some valid events were appended at once. */
  function Grown(cmp: Collation, events: seq<Event>, batch: seq<Event>): seq<Event> {
    Sort(EventLe(cmp), events + batch)
  }

  lemma GrownByOne(cmp: Collation, events: seq<Event>, batch: seq<Event>, x: Event)
    ensures Grown(cmp, events, batch + [x]) == Insert(EventLe(cmp), Grown(cmp, events, batch), x)
  {
    var all := events + (batch + [x]);
    assert all[..|all| - 1] == events + batch;
  }

  /** Batches add up: the store is the same whether events arrive together or one batch after the
      other, since it is sorted each time. */
  lemma {:induction false} GrownInSteps(cmp: Collation, events: seq<Event>, a: seq<Event>, b: seq<Event>)
    requires IsCollation(cmp)
    ensures Grown(cmp, Grown(cmp, events, a), b) == Grown(cmp, events, a + b)
  {
    if b == [] {
      GrownAgain(cmp, events, a);
      assert a + b == a;
    } else {
      hide *;
      var front, x := b[..|b| - 1], b[|b| - 1];
      GrownInSteps(cmp, events, a, front);
      GrownByOne(cmp, Grown(cmp, events, a), front, x);
      GrownByOne(cmp, events, a + front, x);
      LastOf(a, b);
    }
  }

  lemma LastOf<T>(a: seq<T>, b: seq<T>)
    requires b != []
    ensures b == b[..|b| - 1] + [b[|b| - 1]]
    ensures (a + b[..|b| - 1]) + [b[|b| - 1]] == a + b
  {}

  lemma GrownAgain(cmp: Collation, events: seq<Event>, a: seq<Event>)
    requires IsCollation(cmp)
    ensures Grown(cmp, Grown(cmp, events, a), []) == Grown(cmp, events, a)
  {
    EventOrder(cmp);
    SortSorts(EventLe(cmp), events + a);
    SortFixesSorted(EventLe(cmp), Grown(cmp, events, a));
    assert Grown(cmp, events, a) + [] == Grown(cmp, events, a);
  }

  /** What a list of single appends makes of the store. */
  function AppendEach(cmp: Collation, events: seq<Event>, list: seq<Event>): seq<Event> {
    if list == [] then events
    else Grown(cmp, AppendEach(cmp, events, list[..|list| - 1]), [list[|list| - 1]])
  }

  lemma AppendNothing(cmp: Collation, events: seq<Event>)
    requires Sorted(EventLe(cmp), events)
    ensures Grown(cmp, events, []) == events
  {
    SortFixesSorted(EventLe(cmp), events);
    assert events + [] == events;
    hide Sort;
  }

  /** Appending one by one, sorting each time, is appending in bulk. */
  lemma {:induction false} AppendsAreOneBatch(cmp: Collation, events: seq<Event>, list: seq<Event>)
    requires IsCollation(cmp) && Sorted(EventLe(cmp), events)
    ensures AppendEach(cmp, events, list) == Grown(cmp, events, list)
  {
    hide Grown, Sorted, IsCollation, EventLe;
    if list == [] {
      AppendNothing(cmp, events);
    } else {
      var front, x := list[..|list| - 1], list[|list| - 1];
      AppendsAreOneBatch(cmp, events, front);
      GrownInSteps(cmp, events, front, [x]);
      assert front + [x] == list;
    }
  }

  class EventStore {
    const cmp: Collation
    var events: seq<Event>

    ghost predicate InOrder()
      reads this
    {
      IsCollation(cmp) && Sorted(EventLe(cmp), events)
    }

    constructor (cmp: Collation)
      requires IsCollation(cmp)
      ensures InOrder() && this.cmp == cmp && events == []
    {
      this.cmp := cmp;
      events := [];
    }

    /** Rejects an event with a missing field before touching the list. On a list in order the sort
        amounts to one insertion. */
    method Append(e: Event) returns (ok: bool)
      requires IsCollation(cmp)
      modifies this
      ensures ok <==> "" !in {e.eventId, e.timestamp, e.sessionId, e.traceId}
      ensures events == if ok then Grown(cmp, old(events), [e]) else old(events)
      ensures ok || old(InOrder()) ==> InOrder()
      ensures ok && old(InOrder()) ==> events == Insert(EventLe(cmp), old(events), e)
    {
      if !ValidEvent(e) {
        return false;
      }
      if InOrder() { PushAndSort(EventLe(cmp), events, e); }
      events := events + [e];
      EventOrder(cmp);
      SortSorts(EventLe(cmp), events);
      events := Sort(EventLe(cmp), events);
      return true;
    }

    /** Stops at the first invalid event and then leaves what it pushed in place, unsorted. */
    method BulkAppend(list: seq<Event>) returns (ok: bool, count: nat)
      requires IsCollation(cmp)
      modifies this
      ensures ok <==> forall i :: 0 <= i < |list| ==> ValidEvent(list[i])
      ensures ok ==> events == Grown(cmp, old(events), list) && count == |events| && InOrder()
      ensures !ok ==> count < |list| && !ValidEvent(list[count]) && forall i :: 0 <= i < count ==> ValidEvent(list[i])
      ensures !ok ==> events == old(events) + list[..count]
    {
      var i := 0;
      while i < |list|
        invariant 0 <= i <= |list|
        invariant forall k :: 0 <= k < i ==> ValidEvent(list[k])
        invariant events == old(events) + list[..i]
      {
        if !ValidEvent(list[i]) {
          return false, i;
        }
        events := events + [list[i]];
        i := i + 1;
      }
      assert list[..|list|] == list;
      EventOrder(cmp);
      SortSorts(EventLe(cmp), events);
      events := Sort(EventLe(cmp), events);
      return true, |events|;
    }

    method QueryBySession(sessionId: string, cursor: Option<string>, limit: Option<int>) returns (page: Page)
      ensures page == PageOf(Scope(events, sessionId), cursor, ToPositiveInt(limit, 50))
    {
      hide Slice, Scope, ToPositiveInt;
      var n := ToPositiveInt(limit, 50);
      var scoped := Scope(events, sessionId);
      var startIndex := 0;
      if cursor.Some? && cursor.value != "" {
        var index := FindFrom(scoped, cursor.value, 0);
        startIndex := if index >= 0 then index + 1 else 0;
      }
      var items := Slice(scoped, startIndex, n);
      var next: Option<string> := None;
      if |items| == n && items[|items| - 1].eventId != "" {
        next := Some(items[|items| - 1].eventId);
      }
      page := Page(items, n, next, |scoped|);
    }

    /** Page `page` of a trace, with the numbers of events and of pages. */
    method QueryByTrace(traceId: string, page: Option<int>, pageSize: Option<int>)
      returns (items: seq<Event>, total: nat, totalPages: nat)
      ensures var scoped := Filter(events, (e: Event) => e.traceId == traceId);
        var size := ToPositiveInt(pageSize, 20);
        && items == TracePage(scoped, ToPositiveInt(page, 1), size)
        && total == |scoped| && totalPages == (|scoped| + size - 1) / size
    {
      hide TracePage, Filter;
      var p := ToPositiveInt(page, 1);
      var size := ToPositiveInt(pageSize, 20);
      var scoped := Filter(events, (e: Event) => e.traceId == traceId);
      items := TracePage(scoped, p, size);
      total := |scoped|;
      totalPages := (|scoped| + size - 1) / size;
    }
  }

  function TracePage(scoped: seq<Event>, page: nat, size: nat): seq<Event>
    requires page >= 1 && size >= 1
  {
    Slice(scoped, (page - 1) * size, size)
  }

  function TracePages(scoped: seq<Event>, from: nat, upTo: nat, size: nat): seq<Event>
    requires 1 <= from && size >= 1
    decreases upTo + 1 - from
  {
    if from > upTo then [] else TracePage(scoped, from, size) + TracePages(scoped, from + 1, upTo, size)
  }

  lemma MulAtMost(a: int, b: int, size: nat)
    requires a <= b
    ensures a * size <= b * size
  {}

  lemma PageCount(n: nat, size: nat, page: nat)
    requires size >= 1 && page >= 1
    ensures page <= (n + size - 1) / size <==> (page - 1) * size < n
  {
    var pages := (n + size - 1) / size;
    assert pages * size <= n + size - 1 < pages * size + size;
    assert (pages - 1) * size == pages * size - size;
    if page <= pages {
      MulAtMost(page - 1, pages - 1, size);
    } else {
      MulAtMost(pages, page - 1, size);
    }
  }

  /** The numbered pages of a trace put together are its whole list. */
  lemma {:induction false} TracePagesCover(scoped: seq<Event>, from: nat, start: nat, size: nat)
    requires 1 <= from && size >= 1 && start == (from - 1) * size
    ensures TracePages(scoped, from, (|scoped| + size - 1) / size, size) == if start <= |scoped| then scoped[start..] else []
    decreases |scoped| - start
  {
    PageCount(|scoped|, size, from);
    if start < |scoped| {
      assert start + size == from * size;
      TracePagesCover(scoped, from + 1, start + size, size);
      if start + size <= |scoped| {
        assert scoped[start..] == scoped[start..start + size] + scoped[start + size..];
      }
    }
  }

  // ----- What a page holds -----

  /** A page has the limit asked for if that is positive, and otherwise fifty; it is filled as far as
      there are events after the cursor. */
  lemma PageHolds(scoped: seq<Event>, cursor: Option<string>, limit: Option<int>)
    ensures var page := PageOf(scoped, cursor, ToPositiveInt(limit, 50));
      var left := |scoped| - StartIndex(scoped, cursor);
      && page.limit == (match limit case Some(n) => if n > 0 then n else 50 case None => 50)
      && |page.items| == (if left < page.limit then left else page.limit)
      && page.items == scoped[StartIndex(scoped, cursor)..StartIndex(scoped, cursor) + |page.items|]
      && page.total == |scoped|
  {
    hide StartIndex;
  }

  /** Without a cursor, or with one that names no event, a page starts at the first event; otherwise
      behind the first event of that id. */
  lemma PageStarts(scoped: seq<Event>, id: string, i: nat)
    requires i < |scoped| && scoped[i].eventId == id && forall k :: 0 <= k < i ==> scoped[k].eventId != id
    ensures StartIndex(scoped, Some(id)) == if id == "" then 0 else i + 1
  {}

  lemma PageStartsOver(scoped: seq<Event>, cursor: Option<string>)
    requires cursor.Some? ==> forall e :: e in scoped ==> e.eventId != cursor.value
    ensures StartIndex(scoped, cursor) == 0
  {
    if cursor.Some? {
      forall k | 0 <= k < |scoped| ensures scoped[k].eventId != cursor.value {
        assert scoped[k] in scoped;
      }
    }
  }

  /** The store is in the order of time, and of ids at one time. */
  lemma GrownInTime(cmp: Collation, events: seq<Event>, batch: seq<Event>, i: nat, j: nat)
    requires IsCollation(cmp) && i < j < |Grown(cmp, events, batch)|
    ensures var a, b := Grown(cmp, events, batch)[i], Grown(cmp, events, batch)[j];
      cmp(a.timestamp, b.timestamp) < 0 || (cmp(a.timestamp, b.timestamp) == 0 && cmp(a.eventId, b.eventId) <= 0)
  {
    EventOrder(cmp);
    SortSorts(EventLe(cmp), events + batch);
    hide Sort;
    assert EventLe(cmp)(Grown(cmp, events, batch)[i], Grown(cmp, events, batch)[j]);
  }
}
