/** Cursor pagination over one account's audit rows, newest first. */
module AuditPaging {
  import opened Common
  import opened Text
  import opened AuditLog

  datatype Page = Page(events: seq<Row>, hasMore: bool, nextCursor: Option<int>)

  predicate Selected(row: Row, account: Bytes, cursor: Option<int>) {
    row.fields.account == account && (cursor.Some? ==> row.eventSeq < cursor.value)
  }

  /** `WHERE account_id = ? AND event_seq < ? ORDER BY event_seq DESC`. */
  function Newest(log: seq<Row>, account: Bytes, cursor: Option<int>): seq<Row> {
    if log == [] then [] else
    var older := Newest(log[..|log| - 1], account, cursor);
    if Selected(log[|log| - 1], account, cursor) then [log[|log| - 1]] + older else older
  }

  /** `audit_log`: fetch one row more than asked for to learn whether there is a next page. */
  function AuditPage(log: seq<Row>, account: Bytes, cursor: Option<int>, limit: nat): Page {
    var rows := Take(Newest(log, account, cursor), limit + 1);
    var hasMore := |rows| > limit;
    var page := Take(rows, limit);
    Page(page, hasMore, if hasMore && page != [] then Some(page[|page| - 1].eventSeq) else None)
  }

  /** Follow `next_cursor`; `logs[i]` is the log as the `i`-th call finds it. */
  function Walk(logs: seq<seq<Row>>, account: Bytes, cursor: Option<int>, limit: nat): seq<Page> {
    if logs == [] then [] else
    var page := AuditPage(logs[0], account, cursor, limit);
    [page] + if page.nextCursor.None? then [] else Walk(logs[1..], account, page.nextCursor, limit)
  }

  function AllEvents(pages: seq<Page>): seq<Row> {
    if pages == [] then [] else pages[0].events + AllEvents(pages[1..])
  }

  /** The log only grows, by rows with larger numbers. */
  ghost predicate Growing(logs: seq<seq<Row>>) {
    && (forall i :: 0 <= i < |logs| ==> Increasing(logs[i]))
    && (forall i :: 0 < i < |logs| ==> logs[i - 1] <= logs[i])
  }

  /** The query returns exactly the rows of the account below the cursor. */
  lemma {:induction false} NewestAreSelected(log: seq<Row>, account: Bytes, cursor: Option<int>)
    ensures forall r :: r in Newest(log, account, cursor) <==> r in log && Selected(r, account, cursor)
  {
    if log != [] {
      NewestAreSelected(log[..|log| - 1], account, cursor);
      assert log == log[..|log| - 1] + [log[|log| - 1]];
    }
  }

  /** Newest first, so no row twice. */
  ghost predicate Decreasing(rows: seq<Row>) {
    forall i, j :: 0 <= i < j < |rows| ==> rows[i].eventSeq > rows[j].eventSeq
  }

  lemma {:induction false} NewestDecreases(log: seq<Row>, account: Bytes, cursor: Option<int>)
    requires Increasing(log)
    ensures Decreasing(Newest(log, account, cursor))
  {
    if log != [] {
      var n := |log| - 1;
      NewestDecreases(log[..n], account, cursor);
      NewestAreSelected(log[..n], account, cursor);
      assert forall r :: r in log[..n] ==> r.eventSeq < log[n].eventSeq;
    }
  }

  /** A cursor above the whole log selects what a laxer cursor selects. */
  lemma {:induction false} AllBelow(log: seq<Row>, account: Bytes, cursor: Option<int>, c: int)
    requires forall r :: r in log ==> r.eventSeq < c
    requires cursor.Some? ==> c <= cursor.value
    ensures Newest(log, account, Some(c)) == Newest(log, account, cursor)
  {
    if log != [] {
      assert log[|log| - 1] in log;
      AllBelow(log[..|log| - 1], account, cursor, c);
    }
  }

  /** Restarting below the `k`-th reported row yields exactly the rows after it. */
  lemma {:induction false} ContinueBelow(log: seq<Row>, account: Bytes, cursor: Option<int>, k: nat)
    requires Increasing(log) && k < |Newest(log, account, cursor)|
    ensures var rows := Newest(log, account, cursor);
            Newest(log, account, Some(rows[k].eventSeq)) == rows[k + 1..]
    decreases |log|
  {
    var n := |log| - 1;
    var rows := Newest(log, account, cursor);
    var older := Newest(log[..n], account, cursor);
    NewestAreSelected(log[..n], account, cursor);
    if !Selected(log[n], account, cursor) {
      ContinueBelow(log[..n], account, cursor, k);
      assert rows[k] in older;
    } else if k == 0 {
      AllBelow(log[..n], account, cursor, log[n].eventSeq);
    } else {
      ContinueBelow(log[..n], account, cursor, k - 1);
      assert rows[k] == older[k - 1] && older[k - 1] in older;
      assert rows[k + 1..] == older[k..];
    }
  }

  /** Rows appended later are invisible below an old cursor. */
  lemma {:induction false} AppendsInvisible(log: seq<Row>, later: seq<Row>, account: Bytes, c: int)
    requires log <= later && Increasing(later) && log != [] && c <= log[|log| - 1].eventSeq
    ensures Newest(later, account, Some(c)) == Newest(log, account, Some(c))
    decreases |later|
  {
    if |log| < |later| {
      AppendsInvisible(log, later[..|later| - 1], account, c);
      assert later[|log| - 1].eventSeq < later[|later| - 1].eventSeq;
    } else {
      assert log == later;
    }
  }

  /** How many calls a walk over `n` rows takes. */
  function Calls(n: nat, limit: nat): nat
    requires limit > 0
  {
    if n <= limit then 1 else 1 + Calls(n - limit, limit)
  }

  /** That is max(1, ceil(n / limit)): the fewest pages, at least one, that have room for `n`. */
  lemma {:induction false} CallsIsCeiling(n: nat, limit: nat)
    requires limit > 0
    ensures var c := Calls(n, limit); 1 <= c && n <= c * limit && (c > 1 ==> (c - 1) * limit < n)
    decreases n
  {
    if n > limit {
      CallsIsCeiling(n - limit, limit);
      var c := Calls(n - limit, limit);
      assert (c + 1) * limit == c * limit + limit;
      assert c * limit == (c - 1) * limit + limit;
    }
  }

  /** Every page: its rows, its flag and its cursor are the next slice of the answer. */
  lemma PageIsSlice(log: seq<Row>, account: Bytes, cursor: Option<int>, limit: nat)
    requires limit > 0
    ensures var rows, page := Newest(log, account, cursor), AuditPage(log, account, cursor, limit);
            && page.hasMore == (|rows| > limit) && page.events == Take(rows, limit)
            && (page.nextCursor.Some? <==> |rows| > limit)
            && (|rows| > limit ==> page.nextCursor == Some(rows[limit - 1].eventSeq))
  {}

  /** After the first page, a log that has grown answers like the rest of the first answer. */
  lemma NextPageContinues(log: seq<Row>, later: seq<Row>, account: Bytes, cursor: Option<int>, limit: nat)
    requires limit > 0 && Increasing(log) && Increasing(later) && log <= later
    requires |Newest(log, account, cursor)| > limit
    ensures var rows := Newest(log, account, cursor);
            Newest(later, account, Some(rows[limit - 1].eventSeq)) == rows[limit..]
  {
    var rows := Newest(log, account, cursor);
    var c := rows[limit - 1].eventSeq;
    ContinueBelow(log, account, cursor, limit - 1);
    NewestAreSelected(log, account, cursor);
    assert rows[limit - 1] in rows;
    AppendsInvisible(log, later, account, c);
  }

  /** The pages spell out `rows`, use as few calls as possible, and end the walk. */
  ghost predicate Covers(pages: seq<Page>, rows: seq<Row>, limit: nat)
    requires limit > 0
  {
    && AllEvents(pages) == rows
    && |pages| == Calls(|rows|, limit)
    && pages[|pages| - 1].nextCursor.None?
  }

  lemma CoversByLastPage(page: Page, limit: nat)
    requires limit > 0 && |page.events| <= limit && page.nextCursor.None?
    ensures Covers([page], page.events, limit)
  {}

  lemma CoversByMorePages(page: Page, rest: seq<Page>, rows: seq<Row>, limit: nat)
    requires 0 < limit < |rows| && page.events == rows[..limit] && Covers(rest, rows[limit..], limit)
    ensures Covers([page] + rest, rows, limit)
  {}

  /** Following `next_cursor` reports every row selected at the first call exactly once, newest
      first, in `Calls` calls, however the log grows in between. */
  lemma {:induction false} WalkVisitsEverything(logs: seq<seq<Row>>, account: Bytes, cursor: Option<int>, limit: nat)
    requires limit > 0 && logs != [] && Growing(logs)
    requires Calls(|Newest(logs[0], account, cursor)|, limit) <= |logs|
    ensures Covers(Walk(logs, account, cursor, limit), Newest(logs[0], account, cursor), limit)
    decreases |logs|
  {
    var rows := Newest(logs[0], account, cursor);
    var page := AuditPage(logs[0], account, cursor, limit);
    PageIsSlice(logs[0], account, cursor, limit);
    if |rows| > limit {
      NextPageContinues(logs[0], logs[1], account, cursor, limit);
      assert Growing(logs[1..]);
      WalkVisitsEverything(logs[1..], account, page.nextCursor, limit);
      CoversByMorePages(page, Walk(logs[1..], account, page.nextCursor, limit), rows, limit);
    } else {
      CoversByLastPage(page, limit);
    }
  }

  /** In terms of the log: the walk reports a row if and only if the log held it at the first call,
      for the account and below the cursor, and it reports newer rows before older ones, so none
      twice. */
  lemma WalkReportsIff(logs: seq<seq<Row>>, account: Bytes, cursor: Option<int>, limit: nat, r: Row)
    requires limit > 0 && logs != [] && Growing(logs)
    requires Calls(|Newest(logs[0], account, cursor)|, limit) <= |logs|
    ensures var reported := AllEvents(Walk(logs, account, cursor, limit));
            && (r in reported <==> r in logs[0] && r.fields.account == account
                                   && (cursor.Some? ==> r.eventSeq < cursor.value))
            && Decreasing(reported)
  {
    WalkVisitsEverything(logs, account, cursor, limit);
    NewestAreSelected(logs[0], account, cursor);
    NewestDecreases(logs[0], account, cursor);
  }

  /** Without a cursor the answer is the account's rows, read backwards. */
  lemma {:induction false} NewestReversesRows(log: seq<Row>, account: Bytes)
    ensures var rows, mine := Newest(log, account, None), RowsOf(log, account);
            |rows| == |mine| && forall i :: 0 <= i < |rows| ==> rows[i] == mine[|mine| - 1 - i]
  {
    if log != [] {
      NewestReversesRows(log[..|log| - 1], account);
    }
  }

}
