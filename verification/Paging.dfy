/** Keyset paging of the submission audit: the query of admin_submissions in
    backend/src/alpha/routes_admin.py and the client of frontend/src/lib/adminSubmissions.ts.
    A client that keeps asking for the page below its last row ends with every row it could see at
    the start, each once and in order, although rows are inserted between its requests. */
module SubmissionPaging {
  import opened Basics
  import opened TopList

  datatype Row = Row(createdAt: int, id: nat, challenge: nat, correct: bool, text: string)

  datatype Cursor = Cursor(createdAt: int, id: nat)

  // ---------- the server: ORDER BY created_at DESC, id DESC below a cursor, with a LIMIT ----------

  predicate Above(a: Row, b: Row) {
    a.createdAt > b.createdAt || (a.createdAt == b.createdAt && a.id > b.id)
  }

  predicate Below(r: Row, cursor: Option<Cursor>) {
    match cursor
    case None => true
    case Some(c) => r.createdAt < c.createdAt || (r.createdAt == c.createdAt && r.id < c.id)
  }

  predicate Descending(s: seq<Row>) {
    forall i, j :: 0 <= i < j < |s| ==> Above(s[i], s[j])
  }

  /** The submission id is the primary key. */
  predicate IdsUnique(rows: set<Row>) {
    forall a, b :: a in rows && b in rows && a.id == b.id ==> a == b
  }

  function Matching(rows: set<Row>, cursor: Option<Cursor>): set<Row> {
    set r | r in rows && Below(r, cursor)
  }

  /** What the query may answer: the highest `limit` matching rows, in descending order. */
  predicate IsPage(rows: set<Row>, cursor: Option<Cursor>, limit: nat, page: seq<Row>) {
    && Descending(page)
    && Elements(page) <= Matching(rows, cursor)
    && |page| <= limit
    && (|page| == limit || Elements(page) == Matching(rows, cursor))
    && forall r, p :: r in Matching(rows, cursor) && r !in page && p in page ==> Above(p, r)
  }

  lemma PageIsTop(rows: set<Row>, cursor: Option<Cursor>, limit: nat, page: seq<Row>)
    ensures IsPage(rows, cursor, limit, page) <==> IsTop(Matching(rows, cursor), Above, limit, page)
  {
    assert Sorted(page, Above) <==> Descending(page);
  }

  lemma AboveIsTotal(rows: set<Row>)
    requires IdsUnique(rows)
    ensures StrictTotal(rows, Above)
  {
  }

  /** The query has an answer, and only one. */
  lemma PageIsDetermined(rows: set<Row>, cursor: Option<Cursor>, limit: nat)
    requires IdsUnique(rows)
    ensures exists page :: IsPage(rows, cursor, limit, page)
    ensures forall p, q :: IsPage(rows, cursor, limit, p) && IsPage(rows, cursor, limit, q) ==> p == q
  {
    AboveIsTotal(Matching(rows, cursor));
    TopExists(Matching(rows, cursor), Above, limit);
    var top :| IsTop(Matching(rows, cursor), Above, limit, top);
    PageIsTop(rows, cursor, limit, top);
    forall p, q | IsPage(rows, cursor, limit, p) && IsPage(rows, cursor, limit, q) ensures p == q {
      PageIsTop(rows, cursor, limit, p);
      PageIsTop(rows, cursor, limit, q);
      TopUnique(Matching(rows, cursor), Above, limit, p, q);
    }
  }

  // ---------- the whole request ----------

  /** The parameters of admin_submissions; `zoned` says that the cursor's instant carries a timezone. */
  datatype Query = Query(
    limit: nat, offset: nat, challenge: Option<nat>, correct: Option<bool>,
    beforeCreatedAt: Option<int>, zoned: bool, beforeId: Option<nat>)
  {
    /** Both halves of the cursor or neither, an instant with a timezone, and no offset beside a cursor. */
    predicate Valid() {
      && (beforeCreatedAt.Some? <==> beforeId.Some?)
      && (beforeCreatedAt.Some? ==> zoned && offset == 0)
    }

    function Keyset(): Option<Cursor> {
      if beforeCreatedAt.Some? && beforeId.Some? then Some(Cursor(beforeCreatedAt.value, beforeId.value)) else None
    }
  }

  /** The rows that pass the two filters. */
  function Selected(rows: set<Row>, q: Query): set<Row> {
    set r | r in rows && (q.challenge.Some? ==> r.challenge == q.challenge.value)
      && (q.correct.Some? ==> r.correct == q.correct.value)
  }

  /** The selected rows below the cursor, without the first `offset`, and at most `limit` of them. */
  ghost predicate IsAnswer(rows: set<Row>, q: Query, page: seq<Row>) {
    exists list ::
      IsPage(Selected(rows, q), q.Keyset(), q.offset + q.limit, list) && page == list[Min(q.offset, |list|)..]
  }

  /** Every request with a valid cursor has an answer, and only one; a request with a cursor, as the client's, is
      answered with the page below it. */
  lemma AnswerIsDetermined(rows: set<Row>, q: Query)
    requires IdsUnique(rows) && q.Valid()
    ensures exists page :: IsAnswer(rows, q, page)
    ensures forall a, b :: IsAnswer(rows, q, a) && IsAnswer(rows, q, b) ==> a == b
    ensures q.offset == 0 ==>
              forall page :: IsAnswer(rows, q, page) <==> IsPage(Selected(rows, q), q.Keyset(), q.limit, page)
  {
    hide IsPage;
    PageIsDetermined(Selected(rows, q), q.Keyset(), q.offset + q.limit);
    var list :| IsPage(Selected(rows, q), q.Keyset(), q.offset + q.limit, list);
    assert IsAnswer(rows, q, list[Min(q.offset, |list|)..]);
    if q.offset == 0 {
      forall page ensures IsAnswer(rows, q, page) <==> IsPage(Selected(rows, q), q.Keyset(), q.limit, page) {
        assert page[0..] == page;
      }
    }
  }

  /** The row passes both filters and lies below the cursor. */
  predicate Passes(r: Row, q: Query) {
    && (q.challenge.Some? ==> r.challenge == q.challenge.value) && (q.correct.Some? ==> r.correct == q.correct.value)
    && (q.beforeCreatedAt.Some? && q.beforeId.Some? ==>
          || r.createdAt < q.beforeCreatedAt.value
          || (r.createdAt == q.beforeCreatedAt.value && r.id < q.beforeId.value))
  }

  lemma {:induction false} TopOfFull(rows: set<Row>, cursor: Option<Cursor>, full: seq<Row>, limit: nat, page: seq<Row>)
    requires IdsUnique(rows) && Descending(full) && Elements(full) == Matching(rows, cursor)
    ensures IsPage(rows, cursor, limit, page) <==> page == full[..Min(limit, |full|)]
  {
    var top := full[..Min(limit, |full|)];
    assert Elements(top) <= Elements(full);
    forall r, p | r in Matching(rows, cursor) && r !in top && p in top ensures Above(p, r) {
      assert r in full;
      var i :| 0 <= i < |full| && full[i] == r;
      var j :| 0 <= j < |top| && top[j] == p;
      assert i >= |top|;
    }
    if |top| < limit { assert top == full; }
    assert IsPage(rows, cursor, limit, top);
    PageIsDetermined(rows, cursor, limit);
  }

  /** The answer is a slice of the one descending list of the rows that pass: `offset` rows in, `limit` rows long. */
  lemma AnswerIsSlice(rows: set<Row>, q: Query, full: seq<Row>, page: seq<Row>)
    requires IdsUnique(rows) && Descending(full) && forall r :: r in full <==> r in rows && Passes(r, q)
    ensures IsAnswer(rows, q, page)
            <==> page == full[Min(q.offset, |full|)..Min(q.offset + q.limit, |full|)]
  {
    var n := q.offset + q.limit;
    var top := full[..Min(n, |full|)];
    assert Elements(full) == Matching(Selected(rows, q), q.Keyset());
    forall list ensures IsPage(Selected(rows, q), q.Keyset(), n, list) <==> list == top {
      TopOfFull(Selected(rows, q), q.Keyset(), full, n, list);
    }
    hide IsPage;
    assert top[Min(q.offset, |top|)..] == full[Min(q.offset, |full|)..Min(n, |full|)];
  }

  // ---------- the client ----------

  function Ids(s: seq<Row>): set<nat> {
    set r | r in s :: r.id
  }

  /** submissionCursor */
  function CursorOf(loaded: seq<Row>): Option<Cursor> {
    if loaded == [] then None
    else var last := loaded[|loaded| - 1]; Some(Cursor(last.createdAt, last.id))
  }

  function AppendUnique(current: seq<Row>, page: seq<Row>): seq<Row>
    decreases |page|
  {
    if page == [] then current
    else if page[0].id in Ids(current) then AppendUnique(current, page[1..])
    else AppendUnique(current + [page[0]], page[1..])
  }

  /** appendUniqueSubmissions: the filter that fills `seenIds` while it runs. */
  method AppendUniqueSubmissions(current: seq<Row>, page: seq<Row>) returns (merged: seq<Row>)
    ensures merged == AppendUnique(current, page)
  {
    var seenIds := set r | r in current :: r.id;
    var kept: seq<Row> := [];
    var i := 0;
    assert current + kept == current && page[0..] == page;
    while i < |page|
      invariant 0 <= i <= |page|
      invariant seenIds == Ids(current + kept)
      invariant AppendUnique(current, page) == AppendUnique(current + kept, page[i..])
    {
      assert page[i..][1..] == page[i + 1..];
      if page[i].id !in seenIds {
        assert (current + kept) + [page[i]] == current + (kept + [page[i]]);
        IdsAppend(current + kept, page[i]);
        seenIds := seenIds + {page[i].id};
        kept := kept + [page[i]];
      }
      i := i + 1;
    }
    merged := current + kept;
  }

  lemma IdsAppend(s: seq<Row>, r: Row)
    ensures Ids(s + [r]) == Ids(s) + {r.id}
  {
    assert r in s + [r];
    forall id | id in Ids(s) + {r.id} ensures id in Ids(s + [r]) {
      if id != r.id {
        var x :| x in s && x.id == id;
        assert x in s + [r];
      }
    }
  }

  predicate DistinctIds(s: seq<Row>) {
    forall i, j :: 0 <= i < j < |s| ==> s[i].id != s[j].id
  }

  /** Merging keeps what was there, takes in every new id once and brings in nothing else. */
  lemma {:induction false} AppendUniqueMerges(current: seq<Row>, page: seq<Row>)
    requires DistinctIds(current)
    ensures var merged := AppendUnique(current, page);
            && current <= merged && DistinctIds(merged)
            && Ids(merged) == Ids(current) + Ids(page)
            && (forall r :: r in merged ==> r in current || r in page)
    decreases |page|
  {
    if page != [] {
      IdsFirst(page);
      if page[0].id in Ids(current) {
        AppendUniqueMerges(current, page[1..]);
      } else {
        IdsAppend(current, page[0]);
        AppendUniqueMerges(current + [page[0]], page[1..]);
      }
    }
  }

  lemma IdsFirst(s: seq<Row>)
    requires s != []
    ensures Ids(s) == {s[0].id} + Ids(s[1..])
  {
    assert s == [s[0]] + s[1..];
    forall id | id in Ids(s[1..]) ensures id in Ids(s) {
      var x :| x in s[1..] && x.id == id;
      assert x in s;
    }
  }

  lemma {:induction false} AppendUniqueIsConcatenation(current: seq<Row>, page: seq<Row>)
    requires DistinctIds(current + page)
    ensures AppendUnique(current, page) == current + page
    decreases |page|
  {
    if page == [] {
      assert current + page == current;
    } else {
      assert (current + [page[0]]) + page[1..] == current + page;
      var all := current + page;
      forall r | r in current ensures r.id != page[0].id {
        var i :| 0 <= i < |current| && current[i] == r;
        assert all[i] == r && all[|current|] == page[0];
      }
      AppendUniqueIsConcatenation(current + [page[0]], page[1..]);
    }
  }

  // ---------- a whole session ----------

  /** What the client holds after these pages. */
  function Loaded(pages: seq<seq<Row>>): seq<Row> {
    if pages == [] then []
    else AppendUnique(Loaded(pages[..|pages| - 1]), pages[|pages| - 1])
  }

  /** The k-th request is answered from the k-th snapshot; the client asks on only after a full page. */
  ghost predicate Session(snapshots: seq<set<Row>>, pages: seq<seq<Row>>, limit: nat) {
    && |snapshots| == |pages|
    && (forall k :: 0 <= k < |pages| ==> IsPage(snapshots[k], CursorOf(Loaded(pages[..k])), limit, pages[k]))
    && (forall k :: 0 <= k < |pages| - 1 ==> |pages[k]| == limit)
  }

  ghost predicate Growing(snapshots: seq<set<Row>>) {
    && (forall i, j :: 0 <= i <= j < |snapshots| ==> snapshots[i] <= snapshots[j])
    && (forall k :: 0 <= k < |snapshots| ==> IdsUnique(snapshots[k]))
  }

  /** Between two requests, rows appear only above the client's cursor. */
  ghost predicate InsertsAbove(snapshots: seq<set<Row>>, pages: seq<seq<Row>>)
    requires |snapshots| == |pages|
  {
    forall k :: 0 < k < |pages| ==>
      Matching(snapshots[k], CursorOf(Loaded(pages[..k]))) == Matching(snapshots[k - 1], CursorOf(Loaded(pages[..k])))
  }

  lemma DescendingIsDistinct(s: seq<Row>, rows: set<Row>)
    requires Descending(s) && Elements(s) <= rows && IdsUnique(rows)
    ensures DistinctIds(s)
  {
    forall i, j | 0 <= i < j < |s| ensures s[i].id != s[j].id {
      assert s[i] in rows && s[j] in rows && Above(s[i], s[j]);
    }
  }

  /** The page continues the list downwards. */
  lemma PageDescends(rows: set<Row>, loaded: seq<Row>, page: seq<Row>, limit: nat)
    requires Descending(loaded) && IsPage(rows, CursorOf(loaded), limit, page)
    ensures Descending(loaded + page)
  {
    var all := loaded + page;
    forall i, j | 0 <= i < j < |all| ensures Above(all[i], all[j]) {
      if i < |loaded| <= j {
        assert page[j - |loaded|] in Elements(page);
        assert loaded[i] == loaded[|loaded| - 1] || Above(loaded[i], loaded[|loaded| - 1]);
      }
    }
  }

  /** What is left below the cursor after a page. */
  lemma PageLeaves(rows: set<Row>, loaded: seq<Row>, page: seq<Row>, limit: nat)
    requires IsPage(rows, CursorOf(loaded), limit, page)
    ensures Matching(rows, CursorOf(loaded + page)) == Matching(rows, CursorOf(loaded)) - Elements(page)
    ensures |page| < limit ==> Matching(rows, CursorOf(loaded + page)) == {}
  {
    var all := loaded + page;
    if page == [] {
      assert all == loaded;
    } else {
      var last := page[|page| - 1];
      assert CursorOf(all) == Some(Cursor(last.createdAt, last.id)) && last in Elements(page);
      forall r | r in rows
        ensures r in Matching(rows, CursorOf(all)) <==> r in Matching(rows, CursorOf(loaded)) - Elements(page)
      {
        if r in page {
          var i :| 0 <= i < |page| && page[i] == r;
          assert i == |page| - 1 || Above(page[i], last);
        } else if Below(r, CursorOf(all)) {
          BelowTransitive(r, last, CursorOf(loaded));
        }
      }
    }
  }

  /** One page, seen from the client: it continues the list downwards and nothing above it is missed. */
  lemma PageStep(rows: set<Row>, loaded: seq<Row>, page: seq<Row>, limit: nat)
    requires IdsUnique(rows) && Elements(loaded) <= rows && Descending(loaded)
    requires IsPage(rows, CursorOf(loaded), limit, page)
    ensures AppendUnique(loaded, page) == loaded + page
    ensures Descending(loaded + page) && Elements(loaded + page) <= rows
    ensures Matching(rows, CursorOf(loaded + page)) == Matching(rows, CursorOf(loaded)) - Elements(page)
    ensures |page| < limit ==> Matching(rows, CursorOf(loaded + page)) == {}
  {
    PageDescends(rows, loaded, page, limit);
    PageLeaves(rows, loaded, page, limit);
    assert Elements(page) <= rows by {
      forall r | r in Elements(page) ensures r in rows {}
    }
    hide Descending, IsPage, Matching, CursorOf, IdsUnique, AppendUnique;
    assert Elements(loaded + page) == Elements(loaded) + Elements(page);
    DescendingIsDistinct(loaded + page, rows);
    AppendUniqueIsConcatenation(loaded, page);
  }

  lemma BelowTransitive(r: Row, last: Row, cursor: Option<Cursor>)
    requires Below(last, cursor) && Below(r, Some(Cursor(last.createdAt, last.id)))
    ensures Below(r, cursor)
  {
  }

  /** Rows known before a page stay covered by it. */
  lemma PageCovers(known: set<Row>, rows: set<Row>, loaded: seq<Row>, page: seq<Row>, limit: nat)
    requires IdsUnique(rows) && Elements(loaded) <= rows && Descending(loaded) && known <= rows
    requires IsPage(rows, CursorOf(loaded), limit, page)
    requires forall r :: r in known ==> r in loaded || Below(r, CursorOf(loaded))
    ensures forall r :: r in known ==> r in loaded + page || Below(r, CursorOf(loaded + page))
    ensures |page| < limit ==> known <= Elements(loaded + page)
  {
    PageStep(rows, loaded, page, limit);
    var all := loaded + page;
    forall r | r in known ensures r in all || r in Matching(rows, CursorOf(all)) {
      if r !in loaded && r !in page {
        assert r in Matching(rows, CursorOf(loaded)) - Elements(page);
      }
    }
  }

  /** After any number of pages the list is in descending order, and every row that was there at the
      start is either in it or below the cursor, wherever other rows were inserted meanwhile. */
  lemma {:induction false} LoadedCovers(snapshots: seq<set<Row>>, pages: seq<seq<Row>>, limit: nat)
    requires Session(snapshots, pages, limit) && Growing(snapshots) && pages != []
    ensures var n := |pages| - 1; var loaded := Loaded(pages);
            && Descending(loaded) && Elements(loaded) <= snapshots[n]
            && (forall r :: r in snapshots[0] ==> r in loaded || Below(r, CursorOf(loaded)))
            && (|pages[n]| < limit ==> snapshots[0] <= Elements(loaded))
            && |loaded| == |Loaded(pages[..n])| + |pages[n]|
    decreases |pages|
  {
    var n := |pages| - 1;
    var before, rows := Loaded(pages[..n]), snapshots[n];
    if n > 0 {
      SessionPrefix(snapshots, pages, limit);
      LoadedCovers(snapshots[..n], pages[..n], limit);
      assert snapshots[..n][n - 1] == snapshots[n - 1] <= rows && snapshots[..n][0] == snapshots[0] <= rows;
    }
    PageStep(rows, before, pages[n], limit);
    PageCovers(snapshots[0], rows, before, pages[n], limit);
  }

  lemma SessionPrefix(snapshots: seq<set<Row>>, pages: seq<seq<Row>>, limit: nat)
    requires Session(snapshots, pages, limit) && Growing(snapshots) && |pages| > 1
    ensures var n := |pages| - 1;
            Session(snapshots[..n], pages[..n], limit) && Growing(snapshots[..n])
            && (InsertsAbove(snapshots, pages) ==> InsertsAbove(snapshots[..n], pages[..n]))
  {
    hide IsPage, Matching, IdsUnique, CursorOf, Loaded;
    var n := |pages| - 1;
    forall k | 0 <= k < n ensures pages[..n][..k] == pages[..k] {}
  }

  /** When inserted rows always sort above the cursor, the list and the rows still below the cursor
      together are exactly the rows of the first snapshot. */
  lemma {:induction false} LoadedPartition(snapshots: seq<set<Row>>, pages: seq<seq<Row>>, limit: nat)
    requires Session(snapshots, pages, limit) && Growing(snapshots) && pages != []
    requires InsertsAbove(snapshots, pages)
    ensures var loaded := Loaded(pages); var rest := Matching(snapshots[|pages| - 1], CursorOf(loaded));
            Elements(loaded) + rest == snapshots[0] && Elements(loaded) !! rest
    decreases |pages|
  {
    var n := |pages| - 1;
    var before, rows := Loaded(pages[..n]), snapshots[n];
    if n > 0 {
      SessionPrefix(snapshots, pages, limit);
      LoadedCovers(snapshots[..n], pages[..n], limit);
      LoadedPartition(snapshots[..n], pages[..n], limit);
      assert snapshots[..n][n - 1] <= rows;
      assert Matching(rows, CursorOf(before)) == Matching(snapshots[n - 1], CursorOf(before));
    } else {
      assert Matching(rows, CursorOf(before)) == rows;
    }
    PageStep(rows, before, pages[n], limit);
    assert Elements(before + pages[n]) == Elements(before) + Elements(pages[n]);
  }

  lemma NextMultiple(n: nat, limit: nat)
    ensures n * limit + limit == (n + 1) * limit
  {
  }

  lemma {:induction false} LoadedSize(snapshots: seq<set<Row>>, pages: seq<seq<Row>>, limit: nat)
    requires Session(snapshots, pages, limit) && Growing(snapshots) && pages != []
    ensures |Loaded(pages)| == (|pages| - 1) * limit + |pages[|pages| - 1]|
    decreases |pages|
  {
    LoadedCovers(snapshots, pages, limit);
    if |pages| > 1 {
      SessionPrefix(snapshots, pages, limit);
      LoadedSize(snapshots[..|pages| - 1], pages[..|pages| - 1], limit);
      NextMultiple(|pages| - 2, limit);
    }
  }

  /** Termination and exactness: at most |rows| / limit + 1 requests, and the finished list is the
      descending listing of precisely the rows present at the first request. */
  lemma PagingIsComplete(snapshots: seq<set<Row>>, pages: seq<seq<Row>>, limit: nat)
    requires Session(snapshots, pages, limit) && Growing(snapshots) && pages != []
    requires InsertsAbove(snapshots, pages)
    ensures (|pages| - 1) * limit <= |snapshots[0]|
    ensures |pages[|pages| - 1]| < limit ==>
              Descending(Loaded(pages)) && Elements(Loaded(pages)) == snapshots[0]
              && |Loaded(pages)| == |snapshots[0]|
  {
    LoadedCovers(snapshots, pages, limit);
    LoadedPartition(snapshots, pages, limit);
    LoadedSize(snapshots, pages, limit);
    AboveIsTotal(snapshots[|pages| - 1]);
    SortedSize(Loaded(pages), snapshots[|pages| - 1], Above);
    SubsetCardinality(Elements(Loaded(pages)), snapshots[0]);
  }
}
