/** Paging through the history of a draft, newest first, and through the list of drafts. */
module DraftPages {
  import opened Wrappers
  import M = Membership
  import opened Drafts
  import opened DraftHistory
  import opened TextOrder

  const MAX_PAGE: nat := 25

  datatype Page<T> = Page(items: seq<T>, next: Option<T>)

  function Minimum(a: int, b: int): int {
    if a < b then a else b
  }

  /** The first `limit` of the rows, and where the next page starts if there are more. */
  function Cut<T>(rows: seq<T>, limit: nat): Page<T>
    requires limit > 0
  {
    if |rows| > limit then Page(rows[..limit], Some(rows[limit - 1])) else Page(rows, None)
  }

  // --- History --------------------------------------------------------------------------

  /** The greatest revisions below `before`, in descending order, at most `count` of them. */
  function Rows(s: State, draft: string, before: nat, count: nat): seq<nat>
    decreases before
  {
    if before == 0 || count == 0 then []
    else if Key(draft, before - 1) in s.revisions then [before - 1] + Rows(s, draft, before - 1, count - 1)
    else Rows(s, draft, before - 1, count)
  }

  /** `top, top - 1, ...`, at most `count` numbers, down to one. */
  function Down(top: nat, count: nat): seq<nat> {
    if top == 0 || count == 0 then [] else [top] + Down(top - 1, count - 1)
  }

  ghost predicate RowsRead(rules: Rules, s: State, draft: string, rows: seq<nat>, limit: int) {
    forall k :: 0 <= k < |rows| && k < limit ==> ReadRevision(rules, s, Key(draft, rows[k])).Some?
  }

  function Bound(head: nat, before: Option<int>): int {
    if before.Some? then before.value else head + 1
  }

  /** One page: at most `limit` revisions below `before`, refused when there is a gap. */
  ghost function HistoryPage(rules: Rules, s: State, draft: string, limit: int,
                             before: Option<int>): Result<Page<nat>> {
    if !M.CanonicalUuid(draft) || !(1 <= limit <= MAX_PAGE) then Err(Invalid)
    else if draft !in s.heads then Err(DraftNotFound)
    else if !IsHead(s, draft, s.heads[draft]) then Err(Corrupt)
    else if before.Some? && !(1 <= before.value < MAX_REVISION) then Err(Invalid)
    else
      var bound := Bound(s.heads[draft], before);
      var rows := Rows(s, draft, bound, limit + 1);
      if rows != Down(Minimum(s.heads[draft], bound - 1), limit + 1) || !RowsRead(rules, s, draft, rows, limit)
        then Err(Corrupt)
      else Ok(Cut(rows, limit))
  }

  lemma {:induction false} DownIs(top: nat, count: nat)
    ensures |Down(top, count)| == Minimum(top, count)
    ensures forall k :: 0 <= k < |Down(top, count)| ==> Down(top, count)[k] == top - k
  {
    if top > 0 && count > 0 {
      DownIs(top - 1, count - 1);
    }
  }

  lemma {:induction false} RowsAreDown(s: State, draft: string, before: nat, count: nat)
    requires Contiguous(s) && draft in s.heads
    ensures Rows(s, draft, before, count) == if before == 0 then []
      else Down(Minimum(s.heads[draft], before - 1), count)
    decreases before
  {
    if before > 0 && count > 0 {
      RowsAreDown(s, draft, before - 1, count - 1);
      RowsAreDown(s, draft, before - 1, count);
    }
  }

  lemma DownReads(rules: Rules, s: State, draft: string, top: nat, count: nat, limit: int)
    requires History(rules, s) && draft in s.heads && top <= s.heads[draft]
    ensures RowsRead(rules, s, draft, Down(top, count), limit)
  {
    hide *;
    DownIs(top, count);
    forall k | 0 <= k < |Down(top, count)| && k < limit
      ensures ReadRevision(rules, s, Key(draft, Down(top, count)[k])).Some? {
      InRange(top, count, k);
      AllReadable(rules, s, Key(draft, Down(top, count)[k]));
      ReadableReads(rules, s, Key(draft, Down(top, count)[k]));
    }
    RowsReadFrom(rules, s, draft, Down(top, count), limit);
  }

  lemma RowsReadFrom(rules: Rules, s: State, draft: string, rows: seq<nat>, limit: int)
    requires forall k :: 0 <= k < |rows| && k < limit ==> ReadRevision(rules, s, Key(draft, rows[k])).Some?
    ensures RowsRead(rules, s, draft, rows, limit)
  {
    hide ReadRevision;
  }

  lemma InRange(top: nat, count: nat, k: nat)
    requires k < |Down(top, count)|
    ensures 1 <= Down(top, count)[k] <= top
  {
    DownIs(top, count);
  }

  lemma ReadableReads(rules: Rules, s: State, k: Key)
    requires Readable(rules, s, k)
    ensures ReadRevision(rules, s, k).Some?
  {
    hide ReadRevision;
  }

  lemma PageFromRows(rules: Rules, s: State, draft: string, limit: nat, before: Option<int>, top: nat)
    requires draft in s.heads && IsHead(s, draft, s.heads[draft]) && 1 <= limit <= MAX_PAGE && M.CanonicalUuid(draft)
    requires before.Some? ==> 1 <= before.value < MAX_REVISION
    requires top == Minimum(s.heads[draft], Bound(s.heads[draft], before) - 1)
    requires Rows(s, draft, Bound(s.heads[draft], before), limit + 1) == Down(top, limit + 1)
    requires RowsRead(rules, s, draft, Down(top, limit + 1), limit)
    ensures HistoryPage(rules, s, draft, limit, before) == Ok(Cut(Down(top, limit + 1), limit))
  {
    hide M.CanonicalUuid, IsHead, Rows, Down, RowsRead, Cut;
  }

  lemma HeadIsRead(rules: Rules, s: State, draft: string)
    requires History(rules, s) && draft in s.heads
    ensures IsHead(s, draft, s.heads[draft])
  {
    hide *;
    HistoryParts(rules, s);
    HeadsPositive(s, draft);
    AllReadable(rules, s, Key(draft, s.heads[draft]));
  }

  lemma PageParts(rules: Rules, s: State, draft: string, limit: nat, bound: nat, top: nat)
    requires History(rules, s) && draft in s.heads && 1 <= limit && 0 < bound
    requires top == Minimum(s.heads[draft], bound - 1)
    ensures IsHead(s, draft, s.heads[draft]) && Rows(s, draft, bound, limit + 1) == Down(top, limit + 1)
    ensures RowsRead(rules, s, draft, Down(top, limit + 1), limit)
  {
    hide *;
    MinimumLess(s.heads[draft], bound - 1);
    HistoryParts(rules, s);
    RowsAreDown(s, draft, bound, limit + 1);
    HeadIsRead(rules, s, draft);
    DownReads(rules, s, draft, top, limit + 1, limit);
  }

  /** On every kept history a page is read without fault, and holds the next revisions below its bound. */
  lemma PageReads(rules: Rules, s: State, draft: string, limit: nat, before: Option<int>, top: nat)
    requires History(rules, s) && draft in s.heads && 1 <= limit <= MAX_PAGE
    requires before.Some? ==> 1 <= before.value < MAX_REVISION
    requires top == Minimum(s.heads[draft], Bound(s.heads[draft], before) - 1)
    ensures HistoryPage(rules, s, draft, limit, before) == Ok(Cut(Down(top, limit + 1), limit))
  {
    assert Bound(s.heads[draft], before) > 0;
    hide *;
    HeadIsListed(rules, s, draft);
    PageParts(rules, s, draft, limit, Bound(s.heads[draft], before), top);
    PageFromRows(rules, s, draft, limit, before, top);
  }

  lemma HeadsPositive(s: State, draft: string)
    requires Contiguous(s) && draft in s.heads
    ensures s.heads[draft] >= 1
  {
  }

  lemma MinimumLess(a: int, b: int)
    ensures Minimum(a, b) <= a
  {
  }

  /** All revisions found by following the next bounds, or nothing once a page is refused. */
  ghost function HistoryWalk(rules: Rules, s: State, draft: string, limit: int, before: Option<int>,
                             pages: nat): Option<seq<nat>>
    decreases pages
  {
    var page := HistoryPage(rules, s, draft, limit, before);
    if page.Err? || pages == 0 then None
    else if page.value.next == None then Some(page.value.items)
    else
      var rest := HistoryWalk(rules, s, draft, limit, Some(page.value.next.value), pages - 1);
      if rest == None then None else Some(page.value.items + rest.value)
  }

  lemma {:induction false} DownSplits(top: nat, limit: nat)
    requires limit < top
    ensures Down(top, limit) + Down(top - limit, top - limit) == Down(top, top)
  {
    DownIs(top, limit);
    DownIs(top - limit, top - limit);
    DownIs(top, top);
    hide Down;
    assert Down(top, limit) + Down(top - limit, top - limit) == Down(top, top);
  }

  lemma WalkLast(rules: Rules, s: State, draft: string, limit: int, before: Option<int>, pages: nat, items: seq<nat>)
    requires HistoryPage(rules, s, draft, limit, before) == Ok(Page(items, None)) && pages > 0
    ensures HistoryWalk(rules, s, draft, limit, before, pages) == Some(items)
  {
    hide HistoryPage;
  }

  lemma WalkMore(rules: Rules, s: State, draft: string, limit: int, before: Option<int>, pages: nat, items: seq<nat>,
                 next: nat, rest: seq<nat>)
    requires HistoryPage(rules, s, draft, limit, before) == Ok(Page(items, Some(next))) && pages > 0
    requires HistoryWalk(rules, s, draft, limit, Some(next), pages - 1) == Some(rest)
    ensures HistoryWalk(rules, s, draft, limit, before, pages) == Some(items + rest)
  {
    hide HistoryPage;
  }

  lemma CutDown(top: nat, limit: nat)
    requires limit > 0
    ensures top <= limit ==> Cut(Down(top, limit + 1), limit) == Page(Down(top, top), None)
    ensures top > limit ==> Cut(Down(top, limit + 1), limit) == Page(Down(top, limit), Some(top - limit + 1))
  {
    DownIs(top, limit + 1);
    DownIs(top, top);
    DownIs(top, limit);
    hide Down;
    if top <= limit {
      assert Down(top, limit + 1) == Down(top, top);
    } else {
      assert Down(top, limit + 1)[..limit] == Down(top, limit);
    }
  }

  lemma NextTop(head: nat, limit: nat, top: nat)
    requires 1 <= limit < top <= head < MAX_REVISION
    ensures var next := top - limit + 1;
      1 <= next < MAX_REVISION && top - limit == Minimum(head, Bound(head, Some(next)) - 1)
  {
  }

  /** The revisions from `top` down to one, as a walk from the matching bound finds them. */
  ghost predicate Visits(rules: Rules, s: State, draft: string, limit: nat, top: nat, before: Option<int>, pages: nat) {
    HistoryWalk(rules, s, draft, limit, before, pages) == Some(Down(top, top))
  }

  lemma VisitsLast(rules: Rules, s: State, draft: string, limit: nat, top: nat, before: Option<int>, pages: nat)
    requires 0 < limit && top <= limit && pages > 0
    requires HistoryPage(rules, s, draft, limit, before) == Ok(Cut(Down(top, limit + 1), limit))
    ensures Visits(rules, s, draft, limit, top, before, pages)
  {
    hide HistoryPage, HistoryWalk, Cut, Down;
    CutDown(top, limit);
    WalkLast(rules, s, draft, limit, before, pages, Down(top, top));
  }

  lemma VisitsMore(rules: Rules, s: State, draft: string, limit: nat, top: nat, before: Option<int>, pages: nat)
    requires 0 < limit < top && pages > 0
    requires HistoryPage(rules, s, draft, limit, before) == Ok(Cut(Down(top, limit + 1), limit))
    requires Visits(rules, s, draft, limit, top - limit, Some(top - limit + 1), pages - 1)
    ensures Visits(rules, s, draft, limit, top, before, pages)
  {
    hide HistoryPage, HistoryWalk, Cut, Down;
    CutDown(top, limit);
    DownSplits(top, limit);
    WalkMore(rules, s, draft, limit, before, pages, Down(top, limit), top - limit + 1, Down(top - limit, top - limit));
  }

  /** Following the bounds from `top + 1` visits `top, ..., 1`, each once and in order. */
  lemma {:induction false} HistoryWalkFrom(rules: Rules, s: State, draft: string, limit: nat, top: nat,
                                           before: Option<int>, pages: nat)
    requires History(rules, s) && draft in s.heads && 1 <= limit <= MAX_PAGE && top <= s.heads[draft] < MAX_REVISION
    requires before.Some? ==> 1 <= before.value < MAX_REVISION
    requires top == Minimum(s.heads[draft], Bound(s.heads[draft], before) - 1)
    requires pages > top
    ensures Visits(rules, s, draft, limit, top, before, pages)
    decreases top
  {
    hide *;
    PageReads(rules, s, draft, limit, before, top);
    if top <= limit {
      VisitsLast(rules, s, draft, limit, top, before, pages);
    } else {
      NextTop(s.heads[draft], limit, top);
      HistoryWalkFrom(rules, s, draft, limit, top - limit, Some(top - limit + 1), pages - 1);
      VisitsMore(rules, s, draft, limit, top, before, pages);
    }
  }

  lemma ReadBelowMax(rules: Rules, s: State, k: Key)
    requires ReadRevision(rules, s, k).Some?
    ensures k.revision < MAX_REVISION
  {
  }

  lemma TopIsHead(head: nat)
    ensures Minimum(head, Bound(head, None) - 1) == head
  {
  }

  /** For any page size the whole history is visited, newest first, each revision exactly once. */
  lemma HistoryIsVisited(rules: Rules, s: State, draft: string, limit: nat)
    requires History(rules, s) && draft in s.heads && 1 <= limit <= MAX_PAGE
    ensures var walk := HistoryWalk(rules, s, draft, limit, None, s.heads[draft] + 1);
      walk.Some? && |walk.value| == s.heads[draft] && forall k :: 0 <= k < |walk.value| ==>
        walk.value[k] == s.heads[draft] - k
  {
    var head := s.heads[draft];
    assert Minimum(head, head) == head;
    hide *;
    HistoryParts(rules, s);
    HeadsPositive(s, draft);
    AllReadable(rules, s, Key(draft, head));
    ReadableReads(rules, s, Key(draft, head));
    ReadBelowMax(rules, s, Key(draft, head));
    TopIsHead(head);
    HistoryWalkFrom(rules, s, draft, limit, head, None, head + 1);
    VisitsAll(rules, s, draft, limit, head);
  }

  lemma VisitsAll(rules: Rules, s: State, draft: string, limit: nat, head: nat)
    requires Visits(rules, s, draft, limit, head, None, head + 1)
    ensures var walk := HistoryWalk(rules, s, draft, limit, None, head + 1);
      walk.Some? && |walk.value| == head && forall k :: 0 <= k < |walk.value| ==> walk.value[k] == head - k
  {
    hide HistoryWalk;
    DownIs(head, head);
    hide Down;
  }

  // --- The list of drafts ---------------------------------------------------------------

  predicate Ascending(ids: seq<string>) {
    forall i, j :: 0 <= i < j < |ids| ==> Less(ids[i], ids[j])
  }

  ghost predicate IsLeast(ids: set<string>, m: string) {
    m in ids && forall d :: d in ids && d != m ==> Less(m, d)
  }

  lemma {:induction false} LeastExists(ids: set<string>)
    requires ids != {}
    ensures exists m :: IsLeast(ids, m)
    decreases |ids|
  {
    var d :| d in ids;
    if ids == {d} {
      assert IsLeast(ids, d);
    } else {
      LeastExists(ids - {d});
      var m :| IsLeast(ids - {d}, m);
      LessOrder(d, m);
      forall e | e in ids && Less(d, m) && e != d ensures Less(d, e) {
        if e != m {
          LessTransitive(d, m, e);
        }
      }
      assert IsLeast(ids, if Less(d, m) then d else m);
    }
  }

  /** The order of a query: ascending identifiers. */
  ghost function Ordered(ids: set<string>): seq<string>
    decreases |ids|
  {
    if ids == {} then []
    else
      LeastExists(ids);
      var m :| IsLeast(ids, m);
      [m] + Ordered(ids - {m})
  }

  lemma {:induction false} OrderedIs(ids: set<string>)
    ensures Ascending(Ordered(ids)) && |Ordered(ids)| == |ids| && forall d :: d in Ordered(ids) <==> d in ids
    decreases |ids|
  {
    if ids != {} {
      var m := Ordered(ids)[0];
      OrderedIs(ids - {m});
      var rest := Ordered(ids - {m});
      assert Ordered(ids) == [m] + rest;
      forall k | 0 <= k < |rest| ensures Less(m, rest[k]) {
        assert rest[k] in rest;
      }
    }
  }

  lemma {:induction false} AscendingUnique(a: seq<string>, b: seq<string>)
    requires Ascending(a) && Ascending(b) && forall d :: d in a <==> d in b
    ensures a == b
  {
    assert b != [] ==> b[0] in b;
    if a != [] {
      assert a[0] in b && b[0] in a;
      var i :| 0 <= i < |b| && b[i] == a[0];
      var j :| 0 <= j < |a| && a[j] == b[0];
      LessOrder(a[0], b[0]);
      assert a[0] == b[0];
      forall d ensures d in a[1..] <==> d in b[1..] {
        InTail(a, d);
        InTail(b, d);
      }
      AscendingUnique(a[1..], b[1..]);
      assert a == [a[0]] + a[1..] && b == [b[0]] + b[1..];
    }
  }

  lemma InTail(ids: seq<string>, d: string)
    requires Ascending(ids) && ids != []
    ensures d in ids[1..] <==> d in ids && d != ids[0]
  {
    LessOrder(ids[0], ids[0]);
    assert ids == [ids[0]] + ids[1..];
  }

  /** The status of the current revision, which is also taken for a match when that revision is missing. */
  predicate Matches(s: State, status: Status, d: string) {
    d in s.heads && (Key(d, s.heads[d]) in s.revisions ==> s.revisions[Key(d, s.heads[d])].status == status)
  }

  ghost function Above(s: State, status: Status, after: string): set<string> {
    set d | d in s.heads && Less(after, d) && Matches(s, status, d)
  }

  ghost function Query(s: State, status: Status, after: string): seq<string> {
    Ordered(Above(s, status, after))
  }

  /** Every listed head is the greatest revision, and can be read. */
  ghost predicate HeadsRead(rules: Rules, s: State, rows: seq<string>, limit: int) {
    forall k :: 0 <= k < |rows| && k < limit ==> HeadRead(rules, s, rows[k])
  }

  ghost predicate HeadRead(rules: Rules, s: State, d: string) {
    d in s.heads && IsHead(s, d, s.heads[d]) && ReadRevision(rules, s, Key(d, s.heads[d])).Some?
  }

  /** One page: at most `limit` drafts of the status above `after`, refused when one of them cannot be read. */
  ghost function ListPage(rules: Rules, s: State, status: Status, limit: int,
                          after: Option<string>): Result<Page<string>> {
    if !(1 <= limit <= MAX_PAGE) || (after.Some? && !M.CanonicalUuid(after.value)) then Err(Invalid)
    else
      var ids := Query(s, status, if after.Some? then after.value else "");
      var rows := if |ids| > limit then ids[..limit + 1] else ids;
      if !HeadsRead(rules, s, rows, limit) then Err(Corrupt) else Ok(Cut(rows, limit))
  }

  /** All drafts found by following the next identifiers, or nothing once a page is refused. */
  ghost function ListWalk(rules: Rules, s: State, status: Status, limit: int, after: Option<string>,
                          pages: nat): Option<seq<string>>
    decreases pages
  {
    var page := ListPage(rules, s, status, limit, after);
    if page.Err? || pages == 0 then None
    else if page.value.next == None then Some(page.value.items)
    else
      var rest := ListWalk(rules, s, status, limit, page.value.next, pages - 1);
      if rest == None then None else Some(page.value.items + rest.value)
  }

  /** In a kept history every draft has an acceptable identifier and a head that can be read. */
  lemma HeadIsListed(rules: Rules, s: State, d: string)
    requires History(rules, s) && d in s.heads
    ensures M.CanonicalUuid(d) && Less("", d) && HeadRead(rules, s, d) && Key(d, s.heads[d]) in s.revisions
  {
    HeadReads(rules, s, d);
    hide History, IsHead, StoredProposal, OutcomeAt, Readable;
  }

  /** On every kept history a page of drafts is read without fault. */
  lemma ListPageReads(rules: Rules, s: State, status: Status, limit: nat, after: Option<string>)
    requires History(rules, s) && 1 <= limit <= MAX_PAGE && (after.Some? ==> M.CanonicalUuid(after.value))
    ensures var ids := Query(s, status, if after.Some? then after.value else "");
      ListPage(rules, s, status, limit, after) == Ok(Cut(if |ids| > limit then ids[..limit + 1] else ids, limit))
  {
    hide History, M.CanonicalUuid, HeadRead, Ordered, Cut;
    var above := Above(s, status, if after.Some? then after.value else "");
    OrderedIs(above);
    forall d | d in Ordered(above) ensures HeadRead(rules, s, d) {
      HeadIsListed(rules, s, d);
    }
  }

  /** In an ascending sequence, exactly the later ones are greater than the one at `k`. */
  lemma LaterIsGreater(ids: seq<string>, k: nat, d: string)
    requires Ascending(ids) && k < |ids|
    ensures d in ids[k + 1..] <==> d in ids && Less(ids[k], d)
  {
    hide Less;
    if d in ids {
      var j :| 0 <= j < |ids| && ids[j] == d;
      LessOrder(ids[k], d);
      LessOrder(d, d);
      assert j > k ==> ids[k + 1..][j - k - 1] == d;
      assert j < k ==> Less(d, ids[k]);
      if d in ids[k + 1..] {
        var i :| k < i < |ids| && ids[i] == d;
        assert Less(ids[k], ids[i]);
      }
    }
  }

  /** After the identifier at `k` come exactly the later ones. */
  lemma QueryAfter(s: State, status: Status, after: string, k: nat)
    requires k < |Query(s, status, after)|
    ensures var ids := Query(s, status, after); ids[k] in s.heads && Query(s, status, ids[k]) == ids[k + 1..]
  {
    var above := Above(s, status, after);
    var ids := Ordered(above);
    OrderedIs(above);
    assert ids[k] in above;
    var next := Above(s, status, ids[k]);
    OrderedIs(next);
    hide Ordered, Matches, Less, Ascending;
    forall d ensures d in ids[k + 1..] <==> d in next {
      LaterIsGreater(ids, k, d);
      if d in next {
        LessTransitive(after, ids[k], d);
      }
    }
    TailAscends(ids, k + 1);
    AscendingUnique(Ordered(next), ids[k + 1..]);
  }

  lemma TailAscends(ids: seq<string>, k: nat)
    requires Ascending(ids) && k <= |ids|
    ensures Ascending(ids[k..])
  {
    hide Less;
  }

  /** Following the next identifiers visits every remaining draft once, in order. */
  lemma {:induction false} ListWalkFrom(rules: Rules, s: State, status: Status, limit: nat, after: Option<string>,
                                        pages: nat)
    requires History(rules, s) && 1 <= limit <= MAX_PAGE && (after.Some? ==> M.CanonicalUuid(after.value))
    requires pages > |Query(s, status, if after.Some? then after.value else "")|
    ensures ListWalk(rules, s, status, limit, after, pages) ==
      Some(Query(s, status, if after.Some? then after.value else ""))
    decreases pages
  {
    hide History, M.CanonicalUuid, Query, ListPage;
    ListPageReads(rules, s, status, limit, after);
    var from := if after.Some? then after.value else "";
    var ids := Query(s, status, from);
    if |ids| > limit {
      var last := ids[limit - 1];
      assert ids[..limit + 1][..limit] == ids[..limit] && ids[..limit + 1][limit - 1] == last;
      QueryAfter(s, status, from, limit - 1);
      HeadIsListed(rules, s, last);
      ListWalkFrom(rules, s, status, limit, Some(last), pages - 1);
      assert ids[..limit] + ids[limit..] == ids;
    }
  }

  /** For any page size, listing from the start is never refused, and visits exactly the drafts of that status,
      each once, in order. */
  lemma ListingIsVisited(rules: Rules, s: State, status: Status, limit: nat)
    requires History(rules, s) && 1 <= limit <= MAX_PAGE
    ensures var walk := ListWalk(rules, s, status, limit, None, |s.heads.Keys| + 1);
      && walk.Some?
      && (forall i, j :: 0 <= i < j < |walk.value| ==> Precedes(walk.value[i], walk.value[j]))
      && forall d :: d in walk.value <==>
           d in s.heads && Key(d, s.heads[d]) in s.revisions && s.revisions[Key(d, s.heads[d])].status == status
  {
    hide History, ListWalk, Ordered, Ascending;
    var all := Above(s, status, "");
    OrderedIs(all);
    M.CardinalityMonotone(all, s.heads.Keys);
    ListWalkFrom(rules, s, status, limit, None, |s.heads.Keys| + 1);
    AscendingPrecedes(Ordered(all));
    forall d | d in s.heads ensures Less("", d) && Key(d, s.heads[d]) in s.revisions {
      HeadIsListed(rules, s, d);
    }
  }

  lemma AscendingPrecedes(ids: seq<string>)
    requires Ascending(ids)
    ensures forall i, j :: 0 <= i < j < |ids| ==> Precedes(ids[i], ids[j])
  {
    hide Less, Precedes;
    forall i, j | 0 <= i < j < |ids| ensures Precedes(ids[i], ids[j]) {
      FirstDifference(ids[i], ids[j]);
    }
  }

  // --- Pages, item by item --------------------------------------------------------------

  /** At most twenty-five revisions on a page: the greatest ones below the bound, one by one, and where the next page
      starts if there are more. */
  lemma HistoryPageExactly(rules: Rules, s: State, draft: string, limit: int, before: Option<int>)
    requires History(rules, s)
    ensures var r := HistoryPage(rules, s, draft, limit, before);
      if !M.CanonicalUuid(draft) || limit < 1 || limit > 25 then r == Err(Invalid)
      else if draft !in s.heads then r == Err(DraftNotFound)
      else if before.Some? && !(1 <= before.value < 0x7FFF_FFFF_FFFF_FFFF) then r == Err(Invalid)
      else
        var top := if before.Some? && before.value <= s.heads[draft] then before.value - 1 else s.heads[draft];
        && r.Ok? && |r.value.items| == (if top < limit then top else limit)
        && (forall k :: 0 <= k < |r.value.items| ==> r.value.items[k] == top - k)
        && r.value.next == if top > limit then Some(top - limit + 1) else None
  {
    hide History, M.CanonicalUuid, IsHead, Rows, RowsRead, Down, Cut;
    if M.CanonicalUuid(draft) && 1 <= limit <= 25 && draft in s.heads {
      HeadIsRead(rules, s, draft);
      if before.Some? ==> 1 <= before.value < 0x7FFF_FFFF_FFFF_FFFF {
        var top: nat := Minimum(s.heads[draft], Bound(s.heads[draft], before) - 1);
        PageReads(rules, s, draft, limit, before, top);
        CutDown(top, limit);
        DownIs(top, top);
        DownIs(top, limit);
      }
    }
  }

  /** The drafts to be listed: of this status, behind the identifier given. */
  ghost predicate Listed(s: State, status: Status, after: Option<string>, d: string) {
    && d in s.heads && Key(d, s.heads[d]) in s.revisions && s.revisions[Key(d, s.heads[d])].status == status
    && (after.Some? ==> Precedes(after.value, d))
  }

  /** At most twenty-five drafts on a page: the first of those to be listed, in ascending order, and the last of them
      when there are more. */
  lemma ListPageExactly(rules: Rules, s: State, status: Status, limit: int, after: Option<string>)
    requires History(rules, s)
    ensures var r := ListPage(rules, s, status, limit, after);
      if limit < 1 || limit > 25 || (after.Some? && !M.CanonicalUuid(after.value)) then r == Err(Invalid)
      else r.Ok? && FirstOf(s, status, limit, after, r.value.items, r.value.next)
  {
    hide History, M.CanonicalUuid, Query, HeadsRead, Cut, FirstOf;
    if 1 <= limit <= 25 && (after.Some? ==> M.CanonicalUuid(after.value)) {
      ListPageReads(rules, s, status, limit, after);
      QueryListed(rules, s, status, after);
      var ids := Query(s, status, if after.Some? then after.value else "");
      CutIsFirst(s, status, limit, after, ids);
    }
  }

  ghost predicate FirstOf(s: State, status: Status, limit: int, after: Option<string>, items: seq<string>,
                          next: Option<string>) {
    && |items| <= limit && (forall i, j :: 0 <= i < j < |items| ==> Precedes(items[i], items[j]))
    && (forall d :: d in items ==> Listed(s, status, after, d))
    && (next == None ==> forall d :: Listed(s, status, after, d) ==> d in items)
    && (next.Some? ==>
          && |items| == limit > 0 && next.value == items[limit - 1]
          && (exists d :: Listed(s, status, after, d) && d !in items)
          && forall d :: Listed(s, status, after, d) ==> d in items || Precedes(next.value, d))
  }

  ghost predicate All(s: State, status: Status, after: Option<string>, ids: seq<string>) {
    && (forall i, j :: 0 <= i < j < |ids| ==> Precedes(ids[i], ids[j]))
    && forall d :: d in ids <==> Listed(s, status, after, d)
  }

  lemma QueryListed(rules: Rules, s: State, status: Status, after: Option<string>)
    requires History(rules, s)
    ensures All(s, status, after, Query(s, status, if after.Some? then after.value else ""))
  {
    hide History, Ordered, Ascending, Less, Precedes;
    var above := Above(s, status, if after.Some? then after.value else "");
    OrderedIs(above);
    AscendingPrecedes(Ordered(above));
    forall d ensures d in above <==> Listed(s, status, after, d) {
      if d in s.heads {
        HeadIsListed(rules, s, d);
        if after.Some? {
          FirstDifference(after.value, d);
        }
      }
    }
  }

  lemma CutIsFirst(s: State, status: Status, limit: int, after: Option<string>, ids: seq<string>)
    requires 1 <= limit && All(s, status, after, ids)
    ensures var page := Cut(if |ids| > limit then ids[..limit + 1] else ids, limit);
      FirstOf(s, status, limit, after, page.items, page.next)
  {
    hide Listed, Precedes;
    if |ids| > limit {
      assert ids[..limit + 1][..limit] == ids[..limit];
      assert Listed(s, status, after, ids[limit]);
      PrecedesNot(ids, limit);
    }
  }

  /** In ascending order nothing comes twice. */
  lemma PrecedesNot(ids: seq<string>, k: nat)
    requires k < |ids| && forall i, j :: 0 <= i < j < |ids| ==> Precedes(ids[i], ids[j])
    ensures ids[k] !in ids[..k]
  {
    hide Precedes, Less;
    forall i | 0 <= i < k ensures ids[i] != ids[k] {
      FirstDifference(ids[i], ids[k]);
      LessOrder(ids[i], ids[k]);
    }
  }

  /** Whatever the tables hold, what a page of history returns has been read, and stands below the head without a
      gap. */
  lemma HistoryIsRead(rules: Rules, s: State, draft: string, limit: int, before: Option<int>, k: nat)
    requires HistoryPage(rules, s, draft, limit, before).Ok?
    requires k < |HistoryPage(rules, s, draft, limit, before).value.items|
    ensures var items := HistoryPage(rules, s, draft, limit, before).value.items;
      && draft in s.heads && IsHead(s, draft, s.heads[draft])
      && ReadRevision(rules, s, Key(draft, items[k])).Some?
      && (k == 0 ==> items[0] <= s.heads[draft]) && (k > 0 ==> items[k] == items[k - 1] - 1)
  {
    hide *;
    var top := PageRows(rules, s, draft, limit, before);
    DownIs(top, limit + 1);
    MinimumLess(s.heads[draft], Bound(s.heads[draft], before) - 1);
    CutKeeps(Down(top, limit + 1), limit, k);
    RowIsRead(rules, s, draft, Down(top, limit + 1), limit, k);
  }

  /** A page is cut from rows without a gap that have been read. */
  lemma PageRows(rules: Rules, s: State, draft: string, limit: int, before: Option<int>) returns (top: nat)
    requires HistoryPage(rules, s, draft, limit, before).Ok?
    ensures draft in s.heads && IsHead(s, draft, s.heads[draft]) && limit > 0
    ensures top == Minimum(s.heads[draft], Bound(s.heads[draft], before) - 1)
    ensures RowsRead(rules, s, draft, Down(top, limit + 1), limit)
    ensures HistoryPage(rules, s, draft, limit, before).value == Cut(Down(top, limit + 1), limit)
  {
    hide RowsRead, IsHead, Rows, Down, M.CanonicalUuid, Cut;
    top := Minimum(s.heads[draft], Bound(s.heads[draft], before) - 1);
  }

  lemma RowIsRead(rules: Rules, s: State, draft: string, rows: seq<nat>, limit: int, k: nat)
    requires RowsRead(rules, s, draft, rows, limit) && k < |rows| && k < limit
    ensures ReadRevision(rules, s, Key(draft, rows[k])).Some?
  {
    hide ReadRevision;
  }

  lemma CutKeeps(rows: seq<nat>, limit: nat, k: nat)
    requires limit > 0
    ensures |Cut(rows, limit).items| <= limit && |Cut(rows, limit).items| <= |rows|
    ensures k < |Cut(rows, limit).items| ==> Cut(rows, limit).items[k] == rows[k]
    ensures 0 < k < |Cut(rows, limit).items| ==> Cut(rows, limit).items[k - 1] == rows[k - 1]
  {
  }

  /** Whatever the tables hold, every draft that a page lists is at its greatest revision, which has been read. */
  lemma ListedIsRead(rules: Rules, s: State, status: Status, limit: int, after: Option<string>, d: string)
    requires ListPage(rules, s, status, limit, after).Ok? && d in ListPage(rules, s, status, limit, after).value.items
    ensures d in s.heads && IsHead(s, d, s.heads[d]) && ReadRevision(rules, s, Key(d, s.heads[d])).Some?
  {
    hide ReadRevision, IsHead, Query, M.CanonicalUuid;
    var ids := Query(s, status, if after.Some? then after.value else "");
    var rows := if |ids| > limit then ids[..limit + 1] else ids;
    var k :| 0 <= k < |Cut(rows, limit).items| && Cut(rows, limit).items[k] == d;
    assert rows[k] == d && HeadRead(rules, s, rows[k]);
  }
}
