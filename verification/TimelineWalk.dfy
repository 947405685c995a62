/** Walking a session's timeline: query from the start, then again from each returned cursor, while
    other events arrive between the queries. */
module TimelineWalk {
  import opened StableSort
  import opened Wrappers
  import opened Timeline

  /** The pages of a walk with `|batches|` queries at most; `batches[i]` arrives, at once or one by one, before the
      i-th query. The walk stops at the first page without a cursor. */
  function Walk(cmp: Collation, events: seq<Event>, sid: string, cursor: Option<string>, limit: nat,
                batches: seq<seq<Event>>): seq<Page>
    requires limit >= 1
    decreases |batches|
  {
    if batches == [] then []
    else
      var now := Grown(cmp, events, batches[0]);
      var page := PageOf(Scope(now, sid), cursor, limit);
      [page] + (if page.nextCursor.None? then [] else Walk(cmp, now, sid, page.nextCursor, limit, batches[1..]))
  }

  predicate Complete(pages: seq<Page>) {
    pages != [] && pages[|pages| - 1].nextCursor.None?
  }

  function Items(pages: seq<Page>): seq<Event> {
    if pages == [] then [] else pages[0].items + Items(pages[1..])
  }

  function Flatten(batches: seq<seq<Event>>): seq<Event> {
    if batches == [] then [] else batches[0] + Flatten(batches[1..])
  }

  /** No two different places of a list hold events of the session with one id. */
  predicate Apart(sid: string, a: Event, b: Event) {
    a.sessionId == sid && b.sessionId == sid ==> a.eventId != b.eventId
  }

  ghost predicate DistinctIds(sid: string, s: seq<Event>) {
    Pairwise((a, b) => Apart(sid, a, b), s)
  }

  // ----- How the session's list grows -----

  ghost predicate Within(a: seq<Event>, b: seq<Event>) {
    forall x :: x in a ==> x in b
  }

  /** `t` still has everything of `s`, on the same side of everything of `s`. */
  ghost predicate Extends(s: seq<Event>, t: seq<Event>) {
    && Within(s, t)
    && forall p :: 0 <= p < |s| ==> StandsIn(s, p, t)
  }

  ghost predicate StandsIn(s: seq<Event>, p: int, t: seq<Event>) {
    exists q :: StandsAt(s, p, t, q)
  }

  ghost predicate StandsAt(s: seq<Event>, p: int, t: seq<Event>, q: int) {
    && 0 <= p < |s| && 0 <= q < |t| && t[q] == s[p]
    && Within(s[..p + 1], t[..q + 1])
    && Within(s[p + 1..], t[q + 1..])
  }

  lemma ExtendsRefl(s: seq<Event>)
    ensures Extends(s, s)
  {
    forall p | 0 <= p < |s| ensures StandsIn(s, p, s) {
      assert StandsAt(s, p, s, p);
    }
  }

  lemma ExtendsTrans(s: seq<Event>, t: seq<Event>, u: seq<Event>)
    requires Extends(s, t) && Extends(t, u)
    ensures Extends(s, u)
  {
    forall p | 0 <= p < |s| ensures StandsIn(s, p, u) {
      assert StandsIn(s, p, t);
      var q :| StandsAt(s, p, t, q);
      assert StandsIn(t, q, u);
      var r :| StandsAt(t, q, u, r);
      assert StandsAt(s, p, u, r);
    }
  }

  lemma ExtendsInsertion(s: seq<Event>, k: nat, x: Event)
    requires k <= |s|
    ensures Extends(s, s[..k] + [x] + s[k..])
  {
    var t := s[..k] + [x] + s[k..];
    forall p | 0 <= p < |s| ensures StandsIn(s, p, t) {
      if p < k {
        assert t[..p + 1] == s[..p + 1];
        assert t[p + 1..] == s[p + 1..k] + [x] + s[k..];
        assert s[p + 1..] == s[p + 1..k] + s[k..];
        assert StandsAt(s, p, t, p);
      } else {
        assert t[p + 2..] == s[p + 1..];
        assert t[..p + 2] == s[..k] + [x] + s[k..p + 1];
        assert s[..p + 1] == s[..k] + s[k..p + 1];
        assert StandsAt(s, p, t, p + 1);
      }
    }
    assert s == s[..k] + s[k..];
  }

  lemma ScopeOfInsertion(cmp: Collation, s: seq<Event>, x: Event, sid: string)
    ensures Extends(Scope(s, sid), Scope(Insert(EventLe(cmp), s, x), sid))
  {
    var p := (e: Event) => e.sessionId == sid;
    var k := Slot(EventLe(cmp), s, x);
    assert s[..k] + s[k..] == s;
    FilterAppend(s[..k], s[k..], p);
    FilterAppend(s[..k], [x], p);
    FilterAppend(s[..k] + [x], s[k..], p);
    var front, back := Filter(s[..k], p), Filter(s[k..], p);
    if p(x) {
      assert Filter([x], p) == [x];
      assert (front + back)[..|front|] == front && (front + back)[|front|..] == back;
      ExtendsInsertion(front + back, |front|, x);
    } else {
      assert Filter([x], p) == [];
      ExtendsRefl(front + back);
    }
  }

  lemma {:induction false} ScopeGrows(cmp: Collation, events: seq<Event>, batch: seq<Event>, sid: string)
    requires Sorted(EventLe(cmp), events)
    ensures Extends(Scope(events, sid), Scope(Grown(cmp, events, batch), sid))
  {
    if batch == [] {
      assert events + batch == events;
      SortFixesSorted(EventLe(cmp), events);
      ExtendsRefl(Scope(events, sid));
    } else {
      var front, last := batch[..|batch| - 1], batch[|batch| - 1];
      ScopeGrows(cmp, events, front, sid);
      assert batch == front + [last];
      GrownByOne(cmp, events, front, last);
      var middle := Grown(cmp, events, front);
      ScopeOfInsertion(cmp, middle, last, sid);
      ExtendsTrans(Scope(events, sid), Scope(middle, sid), Scope(Grown(cmp, events, batch), sid));
    }
  }

  // ----- What filtering and growing keep -----

  lemma {:induction false} ScopeKeepsPairwise(s: seq<Event>, sid: string, rel: (Event, Event) -> bool)
    requires Pairwise(rel, s)
    ensures Pairwise(rel, Scope(s, sid))
  {
    if s != [] {
      var front := s[..|s| - 1];
      ScopeKeepsPairwise(front, sid, rel);
      forall i | 0 <= i < |Scope(front, sid)| ensures rel(Scope(front, sid)[i], s[|s| - 1]) {
        assert Scope(front, sid)[i] in front;
      }
    }
  }

  lemma PairwiseParts(s: seq<Event>, t: seq<Event>, rel: (Event, Event) -> bool)
    ensures Pairwise(rel, s + t)
      <==> Pairwise(rel, s) && Pairwise(rel, t) && forall x, y :: x in s && y in t ==> rel(x, y)
  {
    if Pairwise(rel, s + t) {
      forall i, j | 0 <= i < j < |s| ensures rel(s[i], s[j]) {
        assert rel((s + t)[i], (s + t)[j]);
      }
      forall i, j | 0 <= i < j < |t| ensures rel(t[i], t[j]) {
        assert rel((s + t)[|s| + i], (s + t)[|s| + j]);
      }
      forall x, y | x in s && y in t ensures rel(x, y) {
        var i :| 0 <= i < |s| && s[i] == x;
        var j :| 0 <= j < |t| && t[j] == y;
        assert rel((s + t)[i], (s + t)[|s| + j]);
      }
    }
  }

  lemma GrownKeepsDistinct(cmp: Collation, events: seq<Event>, batch: seq<Event>, rest: seq<Event>, sid: string)
    requires DistinctIds(sid, events + (batch + rest))
    ensures DistinctIds(sid, Grown(cmp, events, batch) + rest)
  {
    var rel := (a, b) => Apart(sid, a, b);
    assert events + (batch + rest) == (events + batch) + rest;
    PairwiseParts(events + batch, rest, rel);
    SortKeepsPairwise(EventLe(cmp), events + batch, rel);
    SortMembers(EventLe(cmp), events + batch);
    PairwiseParts(Grown(cmp, events, batch), rest, rel);
  }

  /** The session's list: in order, with distinct ids. */
  ghost predicate Listing(cmp: Collation, sid: string, s: seq<Event>) {
    && Sorted(EventLe(cmp), s)
    && (forall i, j :: 0 <= i < j < |s| ==> s[i].eventId != s[j].eventId)
    && (forall i :: 0 <= i < |s| ==> s[i].sessionId == sid && s[i].eventId != "")
  }

  lemma ScopeIsListing(cmp: Collation, events: seq<Event>, sid: string)
    requires Sorted(EventLe(cmp), events) && DistinctIds(sid, events)
    requires forall e :: e in events ==> e.eventId != ""
    ensures Listing(cmp, sid, Scope(events, sid))
  {
    var s := Scope(events, sid);
    ScopeKeepsPairwise(events, sid, EventLe(cmp));
    ScopeKeepsPairwise(events, sid, (a, b) => Apart(sid, a, b));
    forall i | 0 <= i < |s| ensures s[i].sessionId == sid && s[i].eventId != "" {
      assert s[i] in s;
    }
    forall i, j | 0 <= i < j < |s| ensures s[i].eventId != s[j].eventId {
      assert Apart(sid, s[i], s[j]);
    }
  }

  // ----- One page -----

  /** The place of the cursor: -1 for a walk that has not begun. */
  predicate CursorAt(s: seq<Event>, cursor: Option<string>, p: int) {
    if cursor.None? then p == -1 else 0 <= p < |s| && s[p].eventId == cursor.value
  }

  lemma StartAfterCursor(cmp: Collation, sid: string, s: seq<Event>, cursor: Option<string>, p: int)
    requires Listing(cmp, sid, s) && CursorAt(s, cursor, p)
    ensures StartIndex(s, cursor) == p + 1
  {
    if cursor.Some? {
      var k := FindFrom(s, cursor.value, 0);
      assert s[p].eventId == cursor.value;
      assert k == p;
    }
  }

  /** Place `q` of `t` is place `p` of `s`, with what was behind it behind it. */
  ghost predicate Carried(s: seq<Event>, p: int, t: seq<Event>, q: int) {
    && -1 <= p < |s| && -1 <= q < |t|
    && (if p == -1 then q == -1 else q >= 0 && t[q] == s[p])
    && Within(s[..p + 1], t[..q + 1])
    && Within(s[p + 1..], t[q + 1..])
  }

  ghost predicate NoSharedIds(a: seq<Event>, b: seq<Event>) {
    forall x, y :: x in a && y in b ==> x.eventId != y.eventId
  }

  ghost predicate AllAfter(cmp: Collation, x: Event, items: seq<Event>) {
    forall y :: y in items ==> EventLe(cmp)(x, y)
  }

  /** What a walk from place `p` of the list `s` owes: all of the rest, in order, once. */
  ghost predicate Covers(cmp: Collation, sid: string, s: seq<Event>, p: int, items: seq<Event>) {
    && -1 <= p < |s|
    && Within(s[p + 1..], items)
    && Sorted(EventLe(cmp), items)
    && (forall i, j :: 0 <= i < j < |items| ==> items[i].eventId != items[j].eventId)
    && (forall y :: y in items ==> y.sessionId == sid)
    && (p >= 0 ==> AllAfter(cmp, s[p], items))
    && NoSharedIds(s[..p + 1], items)
  }

  /** The rest of a listing covers it. */
  lemma RestCovers(cmp: Collation, sid: string, s: seq<Event>, p: int)
    requires Listing(cmp, sid, s) && -1 <= p < |s|
    ensures Covers(cmp, sid, s, p, s[p + 1..])
  {
    forall y | y in s[p + 1..] ensures y.sessionId == sid && (p >= 0 ==> EventLe(cmp)(s[p], y)) {
      var i :| 0 <= i < |s[p + 1..]| && s[p + 1..][i] == y;
      assert s[p + 1 + i] == y;
    }
    forall x, y | x in s[..p + 1] && y in s[p + 1..] ensures x.eventId != y.eventId {
      var j :| 0 <= j < |s[p + 1..]| && s[p + 1..][j] == y;
      var i :| 0 <= i < p + 1 && s[i] == x;
      assert s[p + 1 + j] == y;
    }
  }

  /** The page from `p` to `r`, element by element. */
  lemma PageElement(cmp: Collation, sid: string, s: seq<Event>, p: int, r: int, y: Event)
    requires Listing(cmp, sid, s) && TotalPreorder(EventLe(cmp)) && -1 <= p < r < |s| && y in s[p + 1..r + 1]
    ensures y.sessionId == sid && y in s[..r + 1] && EventLe(cmp)(y, s[r])
    ensures p >= 0 ==> EventLe(cmp)(s[p], y)
    ensures forall x :: x in s[..p + 1] ==> x.eventId != y.eventId
  {
    var j :| 0 <= j < r - p && s[p + 1..r + 1][j] == y;
    assert s[p + 1 + j] == y;
    assert y == s[..r + 1][p + 1 + j];
    assert p + 1 + j == r ==> EventLe(cmp)(y, s[r]);
    forall x | x in s[..p + 1] ensures x.eventId != y.eventId {
      var i :| 0 <= i < p + 1 && s[i] == x;
    }
  }

  /** A page in order followed by items that come after its last element is in order. */
  lemma PageThenSorted(cmp: Collation, sid: string, s: seq<Event>, p: int, r: int, items: seq<Event>)
    requires Listing(cmp, sid, s) && TotalPreorder(EventLe(cmp)) && -1 <= p < r < |s|
    requires Sorted(EventLe(cmp), items) && AllAfter(cmp, s[r], items)
    ensures Sorted(EventLe(cmp), s[p + 1..r + 1] + items)
  {
    var page := s[p + 1..r + 1];
    var all := page + items;
    forall i, j | 0 <= i < j < |all| ensures EventLe(cmp)(all[i], all[j]) {
      if i < |page| <= j {
        PageElement(cmp, sid, s, p, r, page[i]);
        assert all[j] in items;
      }
    }
  }

  lemma PageThenDistinct(cmp: Collation, sid: string, s: seq<Event>, p: int, r: int, items: seq<Event>)
    requires Listing(cmp, sid, s) && -1 <= p < r < |s|
    requires NoSharedIds(s[..r + 1], items)
    requires forall i, j :: 0 <= i < j < |items| ==> items[i].eventId != items[j].eventId
    ensures var all := s[p + 1..r + 1] + items; forall i, j :: 0 <= i < j < |all| ==> all[i].eventId != all[j].eventId
  {
    var page := s[p + 1..r + 1];
    var all := page + items;
    forall i, j | 0 <= i < j < |all| ensures all[i].eventId != all[j].eventId {
      if i < |page| <= j {
        assert page[i] == s[..r + 1][p + 1 + i] && all[j] in items;
      }
    }
  }

  /** A page from `p` to `r` followed by a covering of the rest from `r` covers the rest from `p`. */
  lemma PageThenCovers(cmp: Collation, sid: string, s: seq<Event>, p: int, r: int, items: seq<Event>)
    requires IsCollation(cmp) && Listing(cmp, sid, s) && -1 <= p < r < |s|
    requires Covers(cmp, sid, s, r, items)
    ensures Covers(cmp, sid, s, p, s[p + 1..r + 1] + items)
  {
    hide Listing, Sorted, IsCollation, TotalPreorder, Within, NoSharedIds, AllAfter;
    EventOrder(cmp);
    PageThenSorted(cmp, sid, s, p, r, items);
    PageThenDistinct(cmp, sid, s, p, r, items);
    PageThenWithin(s, p, r, items);
    PageThenElements(cmp, sid, s, p, r, items);
  }

  lemma PageThenWithin(s: seq<Event>, p: int, r: int, items: seq<Event>)
    requires -1 <= p < r < |s| && Within(s[r + 1..], items)
    ensures Within(s[p + 1..], s[p + 1..r + 1] + items)
  {
    assert s[p + 1..] == s[p + 1..r + 1] + s[r + 1..];
  }

  lemma PageThenElements(cmp: Collation, sid: string, s: seq<Event>, p: int, r: int, items: seq<Event>)
    requires TotalPreorder(EventLe(cmp)) && Listing(cmp, sid, s) && -1 <= p < r < |s|
    requires Covers(cmp, sid, s, r, items)
    ensures var all := s[p + 1..r + 1] + items;
      && (forall y :: y in all ==> y.sessionId == sid)
      && (p >= 0 ==> AllAfter(cmp, s[p], all))
      && NoSharedIds(s[..p + 1], all)
  {
    hide Listing, TotalPreorder, Covers;
    var head, all := s[..p + 1], s[p + 1..r + 1] + items;
    forall y | y in all ensures y.sessionId == sid && (p >= 0 ==> EventLe(cmp)(s[p], y)) {
      PageThenElement(cmp, sid, s, p, r, items, y);
    }
    forall x, y | x in head && y in all ensures x.eventId != y.eventId {
      PageThenElement(cmp, sid, s, p, r, items, y);
    }
  }

  lemma PageThenElement(cmp: Collation, sid: string, s: seq<Event>, p: int, r: int, items: seq<Event>, y: Event)
    requires TotalPreorder(EventLe(cmp)) && Listing(cmp, sid, s) && -1 <= p < r < |s|
    requires Covers(cmp, sid, s, r, items) && y in s[p + 1..r + 1] + items
    ensures y.sessionId == sid
    ensures p >= 0 ==> EventLe(cmp)(s[p], y)
    ensures forall x :: x in s[..p + 1] ==> x.eventId != y.eventId
  {
    if y in s[p + 1..r + 1] {
      PageElement(cmp, sid, s, p, r, y);
    } else {
      EarlierElement(cmp, sid, s, p, r);
    }
  }

  lemma EarlierElement(cmp: Collation, sid: string, s: seq<Event>, p: int, r: int)
    requires Listing(cmp, sid, s) && -1 <= p < r < |s|
    ensures p >= 0 ==> EventLe(cmp)(s[p], s[r])
    ensures Within(s[..p + 1], s[..r + 1])
  {
    var head := s[..p + 1];
    forall x | x in head ensures x in s[..r + 1] {
      var i :| 0 <= i < p + 1 && s[i] == x;
      assert s[..r + 1][i] == x;
    }
  }

  lemma CarriedParts(s: seq<Event>, p: int, t: seq<Event>, q: int)
    requires Carried(s, p, t, q)
    ensures -1 <= p < |s| && -1 <= q < |t|
    ensures Within(s[..p + 1], t[..q + 1]) && Within(s[p + 1..], t[q + 1..])
  {}

  lemma CoversParts(cmp: Collation, sid: string, t: seq<Event>, q: int, items: seq<Event>)
    requires -1 <= q < |t|
    ensures Covers(cmp, sid, t, q, items) ==> Within(t[q + 1..], items) && NoSharedIds(t[..q + 1], items)
  {}

  /** A covering of the grown list covers the list before it grew. */
  lemma CoversBeforeGrowth(cmp: Collation, sid: string, s: seq<Event>, p: int, t: seq<Event>, q: int, items: seq<Event>)
    requires Carried(s, p, t, q) && Covers(cmp, sid, t, q, items)
    requires Within(s[p + 1..], items) && NoSharedIds(s[..p + 1], items)
    ensures Covers(cmp, sid, s, p, items)
  {
    hide Within, NoSharedIds, Sorted;
  }

  lemma WithinTrans(a: seq<Event>, b: seq<Event>, c: seq<Event>)
    requires Within(a, b) && Within(b, c)
    ensures Within(a, c)
  {}

  lemma NoSharedIdsWithin(a: seq<Event>, b: seq<Event>, c: seq<Event>)
    requires Within(a, b) && NoSharedIds(b, c)
    ensures NoSharedIds(a, c)
  {}

  // ----- The whole walk -----

  /** A sorted store whose session events, with all that will arrive, have distinct ids. */
  ghost predicate WalkContext(cmp: Collation, events: seq<Event>, sid: string, batches: seq<seq<Event>>) {
    && IsCollation(cmp)
    && Sorted(EventLe(cmp), events)
    && DistinctIds(sid, events + Flatten(batches))
    && forall e :: e in events + Flatten(batches) ==> e.eventId != ""
  }

  /** What the walk returns after a page with this cursor. */
  function LaterItems(cmp: Collation, events: seq<Event>, sid: string, cursor: Option<string>, limit: nat,
                      batches: seq<seq<Event>>): seq<Event>
    requires limit >= 1
  {
    if cursor.None? then [] else Items(Walk(cmp, events, sid, cursor, limit, batches))
  }

  lemma WalkSplit(cmp: Collation, events: seq<Event>, sid: string, cursor: Option<string>, limit: nat, batches: seq<seq<Event>>)
    requires limit >= 1
    ensures Complete(Walk(cmp, events, sid, cursor, limit, batches)) ==>
      && batches != []
      && var now := Grown(cmp, events, batches[0]);
        var page := PageOf(Scope(now, sid), cursor, limit);
        && (page.nextCursor.Some? ==> Complete(Walk(cmp, now, sid, page.nextCursor, limit, batches[1..])))
        && Items(Walk(cmp, events, sid, cursor, limit, batches)) ==
             page.items + LaterItems(cmp, now, sid, page.nextCursor, limit, batches[1..])
  {
    if batches == [] { return; }
    var now := Grown(cmp, events, batches[0]);
    var page := PageOf(Scope(now, sid), cursor, limit);
    var pages := Walk(cmp, events, sid, cursor, limit, batches);
    if page.nextCursor.None? {
      assert pages == [page];
    } else {
      var later := Walk(cmp, now, sid, page.nextCursor, limit, batches[1..]);
      assert pages == [page] + later && pages[1..] == later;
    }
  }

  /** One query of a listing: a full page that moves the cursor, or the rest. */
  lemma PageShape(cmp: Collation, sid: string, s: seq<Event>, cursor: Option<string>, p: int, limit: nat)
    requires Listing(cmp, sid, s) && -1 <= p < |s| && CursorAt(s, cursor, p) && limit >= 1
    ensures var page := PageOf(s, cursor, limit);
      if page.nextCursor.Some? then
        p + limit < |s| && page.items == s[p + 1..p + limit + 1] && CursorAt(s, page.nextCursor, p + limit)
      else page.items == s[p + 1..]
  {
    StartAfterCursor(cmp, sid, s, cursor, p);
  }

  lemma CursorMoves(cmp: Collation, sid: string, s: seq<Event>, cursor: Option<string>, p: int, limit: nat)
    requires Listing(cmp, sid, s) && CursorAt(s, cursor, p) && limit >= 1
    ensures PageOf(s, cursor, limit).nextCursor.Some? ==> CursorAt(s, PageOf(s, cursor, limit).nextCursor, p + limit)
  {
    PageShape(cmp, sid, s, cursor, p, limit);
  }

  lemma PageCovers(cmp: Collation, sid: string, t: seq<Event>, cursor: Option<string>, q: int, limit: nat, later: seq<Event>)
    requires IsCollation(cmp) && Listing(cmp, sid, t) && -1 <= q < |t| && CursorAt(t, cursor, q) && limit >= 1
    requires if PageOf(t, cursor, limit).nextCursor.Some? then Covers(cmp, sid, t, q + limit, later) else later == []
    ensures Covers(cmp, sid, t, q, PageOf(t, cursor, limit).items + later)
  {
    hide Covers, Listing, IsCollation, PageOf;
    PageShape(cmp, sid, t, cursor, q, limit);
    if PageOf(t, cursor, limit).nextCursor.Some? {
      PageThenCovers(cmp, sid, t, q, q + limit, later);
    } else {
      RestCovers(cmp, sid, t, q);
      assert t[q + 1..] + later == t[q + 1..];
    }
  }

  lemma WholeWithin(s: seq<Event>, t: seq<Event>)
    requires Within(s, t)
    ensures Within(s[..0], t[..0]) && Within(s[0..], t[0..])
  {
    assert s[0..] == s && t[0..] == t;
  }

  lemma CursorInGrown(cmp: Collation, events: seq<Event>, sid: string, cursor: Option<string>, p: int, batches: seq<seq<Event>>)
    returns (q: int)
    requires WalkContext(cmp, events, sid, batches) && batches != [] && CursorAt(Scope(events, sid), cursor, p)
    ensures CursorAt(Scope(Grown(cmp, events, batches[0]), sid), cursor, q)
    ensures Carried(Scope(events, sid), p, Scope(Grown(cmp, events, batches[0]), sid), q)
  {
    ScopeGrows(cmp, events, batches[0], sid);
    var s, t := Scope(events, sid), Scope(Grown(cmp, events, batches[0]), sid);
    hide Scope, Grown, WalkContext, Within;
    if p == -1 {
      q := -1;
      WholeWithin(s, t);
    } else {
      assert StandsIn(s, p, t);
      q :| StandsAt(s, p, t, q);
    }
  }

  lemma {:induction false} WalkFrom(cmp: Collation, events: seq<Event>, sid: string, cursor: Option<string>, p: int,
                                    limit: nat, batches: seq<seq<Event>>)
    requires WalkContext(cmp, events, sid, batches) && limit >= 1
    requires CursorAt(Scope(events, sid), cursor, p)
    requires Complete(Walk(cmp, events, sid, cursor, limit, batches))
    ensures Covers(cmp, sid, Scope(events, sid), p, Items(Walk(cmp, events, sid, cursor, limit, batches)))
    decreases |batches|
  {
    hide *;
    WalkSplit(cmp, events, sid, cursor, limit, batches);
    var now := Grown(cmp, events, batches[0]);
    var t := Scope(now, sid);
    var page := PageOf(t, cursor, limit);
    var later := LaterItems(cmp, now, sid, page.nextCursor, limit, batches[1..]);
    GrownContext(cmp, events, batches, sid);
    var q := CursorInGrown(cmp, events, sid, cursor, p, batches);
    CursorBounds(t, cursor, q);
    LaterItemsOf(cmp, now, sid, page.nextCursor, limit, batches[1..]);
    if page.nextCursor.Some? {
      CursorMoves(cmp, sid, t, cursor, q, limit);
      WalkFrom(cmp, now, sid, page.nextCursor, q + limit, limit, batches[1..]);
    }
    PageCovers(cmp, sid, t, cursor, q, limit, later);
    CarriedParts(Scope(events, sid), p, t, q);
    CoversParts(cmp, sid, t, q, page.items + later);
    WithinTrans(Scope(events, sid)[p + 1..], t[q + 1..], page.items + later);
    NoSharedIdsWithin(Scope(events, sid)[..p + 1], t[..q + 1], page.items + later);
    CoversBeforeGrowth(cmp, sid, Scope(events, sid), p, t, q, page.items + later);
  }

  lemma LaterItemsOf(cmp: Collation, events: seq<Event>, sid: string, cursor: Option<string>, limit: nat,
                     batches: seq<seq<Event>>)
    requires limit >= 1
    ensures LaterItems(cmp, events, sid, cursor, limit, batches) ==
      if cursor.None? then [] else Items(Walk(cmp, events, sid, cursor, limit, batches))
  {}

  lemma CursorBounds(s: seq<Event>, cursor: Option<string>, p: int)
    requires CursorAt(s, cursor, p)
    ensures -1 <= p < |s|
  {}

  lemma GrownContext(cmp: Collation, events: seq<Event>, batches: seq<seq<Event>>, sid: string)
    requires WalkContext(cmp, events, sid, batches) && batches != []
    ensures var now := Grown(cmp, events, batches[0]);
      IsCollation(cmp) && WalkContext(cmp, now, sid, batches[1..]) && Listing(cmp, sid, Scope(now, sid))
  {
    var now, rest := Grown(cmp, events, batches[0]), Flatten(batches[1..]);
    EventOrder(cmp);
    SortSorts(EventLe(cmp), events + batches[0]);
    SortMembers(EventLe(cmp), events + batches[0]);
    GrownKeepsDistinct(cmp, events, batches[0], rest, sid);
    PairwiseParts(now, rest, (a, b) => Apart(sid, a, b));
    hide Sorted, DistinctIds, IsCollation;
    forall e: Event | e in now + rest ensures e.eventId != "" {
      assert e in events + batches[0] || e in rest;
      assert e in events + Flatten(batches);
    }
    forall e: Event | e in now ensures e.eventId != "" {
      assert e in now + rest;
    }
    ScopeIsListing(cmp, now, sid);
  }

  /** A walk from the start to the end returns every event that was there when it began exactly
      once, whatever arrives meanwhile, and returns what it returns in order and without repeats. */
  lemma WalkReturnsAllPresent(cmp: Collation, events: seq<Event>, sid: string, limit: nat, batches: seq<seq<Event>>)
    requires WalkContext(cmp, events, sid, batches) && limit >= 1
    requires Complete(Walk(cmp, events, sid, None, limit, batches))
    ensures var items := Items(Walk(cmp, events, sid, None, limit, batches));
      && (forall e :: e in events && e.sessionId == sid ==> multiset(items)[e] == 1)
      && (forall e :: e in items ==> e.sessionId == sid)
      && Sorted(EventLe(cmp), items)
      && (forall i, j :: 0 <= i < j < |items| ==> items[i].eventId != items[j].eventId)
  {
    WalkFrom(cmp, events, sid, None, -1, limit, batches);
    var s := Scope(events, sid);
    var items := Items(Walk(cmp, events, sid, None, limit, batches));
    forall e | e in events && e.sessionId == sid ensures multiset(items)[e] == 1 {
      assert e in s && s[0..] == s;
      assert e in items;
      OccursOnce(items, e);
    }
  }

  lemma OccursOnce(items: seq<Event>, e: Event)
    requires e in items
    requires forall i, j :: 0 <= i < j < |items| ==> items[i].eventId != items[j].eventId
    ensures multiset(items)[e] == 1
  {
    var k :| 0 <= k < |items| && items[k] == e;
    assert items == items[..k] + [e] + items[k + 1..];
    assert e !in items[..k] && e !in items[k + 1..];
  }

  /** If the collation tells different strings apart, the order of the walk is strict. */
  lemma WalkStrict(cmp: Collation, items: seq<Event>, i: nat, j: nat)
    requires IsCollation(cmp) && (forall a, b :: cmp(a, b) == 0 ==> a == b)
    requires Sorted(EventLe(cmp), items) && i < j < |items| && items[i].eventId != items[j].eventId
    ensures EventSort(cmp, items[i], items[j]) < 0
  {}

  // ----- A walk while nothing arrives -----

  function Quiet(n: nat): seq<seq<Event>> { seq(n, _ => []) }

  /** Where the k-th full page ends: at `k * limit`. */
  function PageEnd(limit: nat, k: nat): nat {
    if k == 0 then 0 else PageEnd(limit, k - 1) + limit
  }

  lemma {:induction false} PageEndsAt(limit: nat, k: nat)
    ensures PageEnd(limit, k) == k * limit
  {
    if k > 0 {
      PageEndsAt(limit, k - 1);
      assert k * limit == (k - 1) * limit + limit;
    }
  }

  lemma PageEndGrows(limit: nat, k: nat, j: nat)
    requires k <= j
    ensures PageEnd(limit, k) <= PageEnd(limit, j)
  {}

  /** The last event of every full page is the first of the list with its id. */
  ghost predicate BoundariesFirst(s: seq<Event>, limit: nat)
    requires limit >= 1
  {
    forall k: nat :: BoundaryFirst(s, limit, k)
  }

  predicate BoundaryFirst(s: seq<Event>, limit: nat, k: nat)
    requires limit >= 1
  {
    var end := PageEnd(limit, k);
    k >= 1 && end <= |s| ==> assert end >= 1; FindFrom(s, s[end - 1].eventId, 0) == end - 1
  }

  /** The pages of a walk over a list that stays as it is. */
  function QuietPages(s: seq<Event>, cursor: Option<string>, limit: nat, n: nat): seq<Page>
    requires limit >= 1
    decreases n
  {
    if n == 0 then []
    else
      var page := PageOf(s, cursor, limit);
      [page] + (if page.nextCursor.None? then [] else QuietPages(s, page.nextCursor, limit, n - 1))
  }

  lemma {:induction false} QuietWalkIsQuietPages(cmp: Collation, events: seq<Event>, sid: string,
                                                 cursor: Option<string>, limit: nat, n: nat)
    requires Sorted(EventLe(cmp), events) && limit >= 1
    ensures Walk(cmp, events, sid, cursor, limit, Quiet(n)) == QuietPages(Scope(events, sid), cursor, limit, n)
    decreases n
  {
    if n >= 1 {
      assert events + [] == events;
      SortFixesSorted(EventLe(cmp), events);
      assert Quiet(n)[1..] == Quiet(n - 1);
      var page := PageOf(Scope(events, sid), cursor, limit);
      if page.nextCursor.Some? {
        QuietWalkIsQuietPages(cmp, events, sid, page.nextCursor, limit, n - 1);
      }
    }
  }

  ghost predicate NamedEvents(s: seq<Event>) {
    forall i :: 0 <= i < |s| ==> s[i].eventId != ""
  }

  /** A query that starts at `start` and what the rest of the walk makes of it. */
  lemma QuietSplit(s: seq<Event>, cursor: Option<string>, limit: nat, n: nat, start: nat)
    requires limit >= 1 && n >= 1 && NamedEvents(s) && StartIndex(s, cursor) == start
    ensures var pages := QuietPages(s, cursor, limit, n);
      if start + limit <= |s| then
        var later := QuietPages(s, Some(s[start + limit - 1].eventId), limit, n - 1);
        (Complete(pages) <==> Complete(later)) && Items(pages) == s[start..start + limit] + Items(later)
      else Complete(pages) && Items(pages) == s[start..]
  {
    var page := PageOf(s, cursor, limit);
    var pages := QuietPages(s, cursor, limit, n);
    if start + limit <= |s| {
      assert page.items == s[start..start + limit];
      assert page.nextCursor == Some(s[start + limit - 1].eventId);
      var later := QuietPages(s, page.nextCursor, limit, n - 1);
      assert pages == [page] + later && pages[1..] == later;
    } else {
      assert page.items == s[start..];
      assert pages == [page];
      assert Items(pages) == page.items + [];
    }
  }

  lemma {:induction false} QuietWalkFrom(s: seq<Event>, cursor: Option<string>, limit: nat, k: nat, start: nat, n: nat)
    requires limit >= 1 && NamedEvents(s) && BoundariesFirst(s, limit)
    requires start == PageEnd(limit, k) && StartIndex(s, cursor) == start
    requires n >= 1 && |s| - start < PageEnd(limit, n)
    ensures Complete(QuietPages(s, cursor, limit, n))
    ensures Items(QuietPages(s, cursor, limit, n)) == s[start..]
    decreases n
  {
    hide QuietPages, PageOf, FindFrom, Items, StartIndex, Complete;
    if start + limit <= |s| {
      var next := Some(s[start + limit - 1].eventId);
      StartBehindFirst(s, start + limit - 1);
      NextBoundary(s, limit, k);
      assert BoundaryFirst(s, limit, k + 1);
      assert PageEnd(limit, n) == PageEnd(limit, n - 1) + limit && n - 1 != 0;
      QuietWalkFrom(s, next, limit, k + 1, start + limit, n - 1);
      assert s[start..] == s[start..start + limit] + s[start + limit..];
    }
    QuietSplit(s, cursor, limit, n, start);
  }

  lemma StartBehindFirst(s: seq<Event>, i: nat)
    requires i < |s| && s[i].eventId != ""
    ensures StartIndex(s, Some(s[i].eventId)) == FindFrom(s, s[i].eventId, 0) + 1 <= i + 1
  {}

  lemma NextBoundary(s: seq<Event>, limit: nat, k: nat)
    requires limit >= 1 && PageEnd(limit, k) + limit <= |s|
    ensures PageEnd(limit, k + 1) == PageEnd(limit, k) + limit
    ensures BoundaryFirst(s, limit, k + 1) <==>
      FindFrom(s, s[PageEnd(limit, k) + limit - 1].eventId, 0) == PageEnd(limit, k) + limit - 1
  {}

  lemma CompleteNeedsQuery(s: seq<Event>, cursor: Option<string>, limit: nat, n: nat)
    requires limit >= 1 && Complete(QuietPages(s, cursor, limit, n))
    ensures n >= 1
  {}

  /** However it goes, a finished quiet walk returns at least as many events as lie ahead of it. */
  lemma {:induction false} QuietWalkCount(s: seq<Event>, cursor: Option<string>, limit: nat, n: nat)
    requires limit >= 1 && NamedEvents(s) && Complete(QuietPages(s, cursor, limit, n))
    ensures |Items(QuietPages(s, cursor, limit, n))| >= |s| - StartIndex(s, cursor)
    decreases n
  {
    hide QuietPages, PageOf, FindFrom, Items, StartIndex, Complete;
    CompleteNeedsQuery(s, cursor, limit, n);
    var start := StartIndex(s, cursor);
    QuietSplit(s, cursor, limit, n, start);
    if start + limit <= |s| {
      var next := Some(s[start + limit - 1].eventId);
      StartBehindFirst(s, start + limit - 1);
      QuietWalkCount(s, next, limit, n - 1);
    }
  }

  /** A quiet walk that returns no more than lies ahead meets no id at a page end that occurred
      before: it would start again behind the first occurrence. */
  lemma {:induction false} ExactWalkHasBoundaries(s: seq<Event>, cursor: Option<string>, limit: nat, k: nat, start: nat, n: nat)
    requires limit >= 1 && NamedEvents(s)
    requires start == PageEnd(limit, k) && StartIndex(s, cursor) == start
    requires Complete(QuietPages(s, cursor, limit, n))
    requires |Items(QuietPages(s, cursor, limit, n))| == |s| - start
    ensures forall j: nat :: j > k ==> BoundaryFirst(s, limit, j)
    decreases n
  {
    hide QuietPages, PageOf, FindFrom, Items, StartIndex, Complete;
    CompleteNeedsQuery(s, cursor, limit, n);
    if start + limit <= |s| {
      var next := Some(s[start + limit - 1].eventId);
      QuietSplit(s, cursor, limit, n, start);
      StartBehindFirst(s, start + limit - 1);
      QuietWalkCount(s, next, limit, n - 1);
      NextBoundary(s, limit, k);
      ExactWalkHasBoundaries(s, next, limit, k + 1, start + limit, n - 1);
    } else {
      NoMoreBoundaries(s, limit, k);
    }
  }

  lemma NoMoreBoundaries(s: seq<Event>, limit: nat, k: nat)
    requires limit >= 1 && PageEnd(limit, k) + limit > |s|
    ensures forall j: nat :: j > k ==> BoundaryFirst(s, limit, j)
  {
    forall j: nat | j > k ensures BoundaryFirst(s, limit, j) {
      PageEndGrows(limit, k + 1, j);
    }
  }

  /** While nothing arrives, a walk returns the session's list and ends, within one query per full
      page and one more, exactly when no full page ends in an id that occurred before. */
  lemma QuietWalkReturnsList(cmp: Collation, events: seq<Event>, sid: string, limit: nat, n: nat)
    requires Sorted(EventLe(cmp), events) && limit >= 1
    requires forall e :: e in events ==> e.eventId != ""
    requires n * limit > |Scope(events, sid)|
    ensures var pages := Walk(cmp, events, sid, None, limit, Quiet(n));
      Complete(pages) && Items(pages) == Scope(events, sid) <==> BoundariesFirst(Scope(events, sid), limit)
  {
    var s := Scope(events, sid);
    forall i | 0 <= i < |s| ensures s[i].eventId != "" {
      assert s[i] in s;
    }
    PageEndsAt(limit, n);
    QuietWalkIsQuietPages(cmp, events, sid, None, limit, n);
    var pages := QuietPages(s, None, limit, n);
    if BoundariesFirst(s, limit) {
      QuietWalkFrom(s, None, limit, 0, 0, n);
      assert s[0..] == s;
    }
    if Complete(pages) && Items(pages) == s {
      ExactWalkHasBoundaries(s, None, limit, 0, 0, n);
      assert BoundaryFirst(s, limit, 0);
    }
  }

  // ----- A walk that outlasts the arrivals -----

  lemma {:induction false} QuietEnds(cmp: Collation, sid: string, s: seq<Event>, cursor: Option<string>, p: int, limit: nat, n: nat)
    requires Listing(cmp, sid, s) && -1 <= p < |s| && CursorAt(s, cursor, p) && limit >= 1
    requires |s| - (p + 1) < PageEnd(limit, n)
    ensures Complete(QuietPages(s, cursor, limit, n))
    decreases n
  {
    hide Listing, CursorAt, PageOf;
    PageShape(cmp, sid, s, cursor, p, limit);
    var page := PageOf(s, cursor, limit);
    if page.nextCursor.Some? {
      QuietEnds(cmp, sid, s, page.nextCursor, p + limit, limit, n - 1);
    }
  }

  /** The context of a walk that nothing more will reach. */
  lemma QuietContext(cmp: Collation, events: seq<Event>, sid: string)
    requires WalkContext(cmp, events, sid, [])
    ensures Sorted(EventLe(cmp), events)
    ensures Listing(cmp, sid, Scope(events, sid))
  {
    assert events + Flatten([]) == events;
    hide IsCollation;
    ScopeIsListing(cmp, events, sid);
  }

  /** One query of a walk: where its cursor is afterwards in the grown list. */
  lemma WalkStep(cmp: Collation, events: seq<Event>, sid: string, cursor: Option<string>, p: int, limit: nat,
                 batches: seq<seq<Event>>) returns (q: int)
    requires WalkContext(cmp, events, sid, batches) && batches != [] && limit >= 1 && CursorAt(Scope(events, sid), cursor, p)
    ensures var t := Scope(Grown(cmp, events, batches[0]), sid);
      PageOf(t, cursor, limit).nextCursor.Some? ==> CursorAt(t, PageOf(t, cursor, limit).nextCursor, q)
  {
    hide *;
    GrownContext(cmp, events, batches, sid);
    var place := CursorInGrown(cmp, events, sid, cursor, p, batches);
    CursorMoves(cmp, sid, Scope(Grown(cmp, events, batches[0]), sid), cursor, place, limit);
    q := place + limit;
  }

  lemma FlattenGrows(cmp: Collation, events: seq<Event>, batches: seq<seq<Event>>)
    requires IsCollation(cmp) && batches != []
    ensures Grown(cmp, Grown(cmp, events, batches[0]), Flatten(batches[1..])) == Grown(cmp, events, Flatten(batches))
  {
    hide Grown, IsCollation;
    GrownInSteps(cmp, events, batches[0], Flatten(batches[1..]));
  }

  lemma {:induction false} WalkEndsFrom(cmp: Collation, events: seq<Event>, sid: string, cursor: Option<string>, p: int,
                                        limit: nat, batches: seq<seq<Event>>, n: nat)
    requires WalkContext(cmp, events, sid, batches) && limit >= 1 && CursorAt(Scope(events, sid), cursor, p)
    requires |Scope(Grown(cmp, events, Flatten(batches)), sid)| < PageEnd(limit, n)
    ensures Complete(Walk(cmp, events, sid, cursor, limit, batches + Quiet(n)))
    decreases |batches|
  {
    hide *;
    if batches == [] {
      WalkEndsQuietly(cmp, events, sid, cursor, p, limit, n);
      assert batches + Quiet(n) == Quiet(n);
    } else {
      var now := Grown(cmp, events, batches[0]);
      GrownContext(cmp, events, batches, sid);
      FlattenGrows(cmp, events, batches);
      var q := WalkStep(cmp, events, sid, cursor, p, limit, batches);
      var page := PageOf(Scope(now, sid), cursor, limit);
      if page.nextCursor.Some? {
        WalkEndsFrom(cmp, now, sid, page.nextCursor, q, limit, batches[1..], n);
      }
      FirstOf(batches, Quiet(n));
      CompleteNext(cmp, events, sid, cursor, limit, batches + Quiet(n));
    }
  }

  lemma FirstOf<T>(a: seq<T>, b: seq<T>)
    requires a != []
    ensures (a + b)[0] == a[0] && (a + b)[1..] == a[1..] + b
  {}

  lemma WalkEndsQuietly(cmp: Collation, events: seq<Event>, sid: string, cursor: Option<string>, p: int, limit: nat, n: nat)
    requires WalkContext(cmp, events, sid, []) && limit >= 1 && CursorAt(Scope(events, sid), cursor, p)
    requires |Scope(Grown(cmp, events, Flatten([])), sid)| < PageEnd(limit, n)
    ensures Complete(Walk(cmp, events, sid, cursor, limit, Quiet(n)))
  {
    QuietContext(cmp, events, sid);
    SortFixesSorted(EventLe(cmp), events);
    assert events + Flatten([]) == events;
    CursorBounds(Scope(events, sid), cursor, p);
    hide Scope, WalkContext;
    QuietEnds(cmp, sid, Scope(events, sid), cursor, p, limit, n);
    QuietWalkIsQuietPages(cmp, events, sid, cursor, limit, n);
  }

  lemma CompleteNext(cmp: Collation, events: seq<Event>, sid: string, cursor: Option<string>, limit: nat, batches: seq<seq<Event>>)
    requires limit >= 1 && batches != []
    ensures var now := Grown(cmp, events, batches[0]);
      var page := PageOf(Scope(now, sid), cursor, limit);
      Complete(Walk(cmp, events, sid, cursor, limit, batches)) <==>
        page.nextCursor.None? || Complete(Walk(cmp, now, sid, page.nextCursor, limit, batches[1..]))
  {}

  /** A walk ends once arrivals stop: after the last of them, one query per full page of the final
      list and one more are enough. */
  lemma WalkEnds(cmp: Collation, events: seq<Event>, sid: string, limit: nat, batches: seq<seq<Event>>, n: nat)
    requires WalkContext(cmp, events, sid, batches) && limit >= 1
    requires n * limit > |Scope(Grown(cmp, events, Flatten(batches)), sid)|
    ensures Complete(Walk(cmp, events, sid, None, limit, batches + Quiet(n)))
  {
    PageEndsAt(limit, n);
    WalkEndsFrom(cmp, events, sid, None, -1, limit, batches, n);
  }

  // ----- Shared ids -----

  /** Distinct ids are enough for that. */
  lemma DistinctIdsBound(s: seq<Event>, limit: nat)
    requires limit >= 1 && forall i, j :: 0 <= i < j < |s| ==> s[i].eventId != s[j].eventId
    ensures BoundariesFirst(s, limit)
  {
    forall k: nat ensures BoundaryFirst(s, limit, k) {}
  }

  /** Two events with one id and pages of one: every page ends in that id, so no walk ends. */
  lemma {:induction false} SharedIdNeverEnds(a: Event, b: Event, n: nat, cursor: Option<string>)
    requires a.eventId == b.eventId != ""
    requires cursor == None || cursor == Some(a.eventId)
    ensures !Complete(QuietPages([a, b], cursor, 1, n))
    decreases n
  {
    if n >= 1 {
      var start := StartIndex([a, b], cursor);
      assert start <= 1 && [a, b][start].eventId == a.eventId;
      hide StartIndex, FindFrom, PageOf, QuietPages, Complete, Items;
      QuietSplit([a, b], cursor, 1, n, start);
      SharedIdNeverEnds(a, b, n - 1, Some(a.eventId));
    }
  }
}
