/** Daily per-account counters kept beside the audit log, and their windowed aggregate. */
module Metrics {
  import opened Common
  import opened Text
  import opened AuditPreimage
  import opened ReaderSet

  datatype Kind = Publish | Retract | Subscribe | Unsubscribe | MarkRead | Register | Update | Delete

  const SECONDS_PER_DAY := 86400

  /** One `record_event` call. `bucket` is the two-byte reader bucket of a `MarkRead`. */
  datatype Event = Event(account: Bytes, kind: Kind, actor: Option<Bytes>, subject: Option<Bytes>,
                         payload: Option<Bytes>, occurredAt: Timestamp, bucket: Option<(Byte, Byte)>)

  /** `account_metrics_daily`, without its key. */
  datatype DailyRow = DailyRow(subscribesNew: nat, unsubscribes: nat, publishes: nat, retracts: nat,
                               impressions: nat, readCount: nat, buckets: Bytes)

  const EMPTY_ROW := DailyRow(0, 0, 0, 0, 0, 0, [])

  /** Keyed by account and UTC day number. */
  type Table = map<(Bytes, int), DailyRow>

  function DayOf(e: Event): int { e.occurredAt / SECONDS_PER_DAY }

  function RowAt(t: Table, account: Bytes, day: int): DailyRow {
    if (account, day) in t then t[(account, day)] else EMPTY_ROW
  }

  function HexDigit(n: nat): Byte
    requires n < 16
  {
    if n < 10 then 0x30 + n else 0x61 + n - 10
  }

  /** `hex::encode` of a two-byte bucket. */
  function Hex(bucket: (Byte, Byte)): (s: Bytes)
    ensures IsToken(s)
  {
    [HexDigit(bucket.0 / 16), HexDigit(bucket.0 % 16), HexDigit(bucket.1 / 16), HexDigit(bucket.1 % 16)]
  }

  lemma SameByte(a: Byte, b: Byte)
    requires HexDigit(a / 16) == HexDigit(b / 16) && HexDigit(a % 16) == HexDigit(b % 16)
    ensures a == b
  {
    assert a / 16 == b / 16 && a % 16 == b % 16;
  }

  /** Different buckets have different encodings. */
  lemma HexInjective(a: (Byte, Byte), b: (Byte, Byte))
    ensures Hex(a) == Hex(b) ==> a == b
  {
    if Hex(a) == Hex(b) {
      assert Hex(a)[0] == Hex(b)[0] && Hex(a)[1] == Hex(b)[1] && Hex(a)[2] == Hex(b)[2] && Hex(a)[3] == Hex(b)[3];
      SameByte(a.0, b.0);
      SameByte(a.1, b.1);
    }
  }

  /** The counter and reader-set half of `record_event`, on one row. */
  function BumpRow(row: DailyRow, e: Event): DailyRow {
    match e.kind
    case Publish => row.(publishes := row.publishes + 1)
    case Retract => row.(retracts := row.retracts + 1)
    case Subscribe => row.(subscribesNew := row.subscribesNew + 1)
    case Unsubscribe => row.(unsubscribes := row.unsubscribes + 1)
    case MarkRead =>
      row.(readCount := row.readCount + 1,
           buckets := if e.bucket.Some? then Added(row.buckets, Hex(e.bucket.value)) else row.buckets)
    case Register => row.(publishes := row.publishes + 1)
    case Update => row.(publishes := row.publishes + 1)
    case Delete => row.(unsubscribes := row.unsubscribes + 1)
  }

  function Bump(t: Table, e: Event): Table {
    t[(e.account, DayOf(e)) := BumpRow(RowAt(t, e.account, DayOf(e)), e)]
  }

  /** The table after any sequence of `record_event` calls. */
  function TableAfter(events: seq<Event>): Table {
    if events == [] then map[] else Bump(TableAfter(events[..|events| - 1]), events[|events| - 1])
  }

  // ----- What a row must say, read off the events -----

  predicate InWindow(e: Event, account: Bytes, from: int, to: int) {
    e.account == account && from <= DayOf(e) <= to
  }

  /** How many events of the given kinds the account had on days `from..to`. */
  function Count(events: seq<Event>, account: Bytes, from: int, to: int, kinds: set<Kind>): nat {
    if events == [] then 0 else
    var e := events[|events| - 1];
    Count(events[..|events| - 1], account, from, to, kinds)
    + if InWindow(e, account, from, to) && e.kind in kinds then 1 else 0
  }

  /** The buckets of the account's `MarkRead` events on days `from..to`. */
  function ReadersIn(events: seq<Event>, account: Bytes, from: int, to: int): set<Bytes> {
    if events == [] then {} else
    var e := events[|events| - 1];
    ReadersIn(events[..|events| - 1], account, from, to)
    + if InWindow(e, account, from, to) && e.kind == MarkRead && e.bucket.Some? then {Hex(e.bucket.value)} else {}
  }

  /** The calls that a count counts. */
  ghost function CountedCalls(events: seq<Event>, account: Bytes, from: int, to: int, kinds: set<Kind>): set<int> {
    set i | 0 <= i < |events| && events[i].account == account
            && from <= events[i].occurredAt / 86400 <= to && events[i].kind in kinds
  }

  /** A count is the number of calls for the account, on the days of the window, of these kinds. */
  lemma {:induction false} CountIsNumberOfCalls(events: seq<Event>, account: Bytes, from: int, to: int, kinds: set<Kind>)
    ensures Count(events, account, from, to, kinds) == |CountedCalls(events, account, from, to, kinds)|
  {
    if events != [] {
      var n := |events| - 1;
      CountIsNumberOfCalls(events[..n], account, from, to, kinds);
      var before, all := CountedCalls(events[..n], account, from, to, kinds), CountedCalls(events, account, from, to, kinds);
      assert all == if n in all then before + {n} else before;
    }
  }

  /** The readers of a window are the buckets of its `mark_read` calls. */
  lemma {:induction false} ReadersAreBuckets(events: seq<Event>, account: Bytes, from: int, to: int, reader: Bytes)
    ensures reader in ReadersIn(events, account, from, to)
            <==> exists i :: && i in CountedCalls(events, account, from, to, {MarkRead})
                             && events[i].bucket.Some? && Hex(events[i].bucket.value) == reader
  {
    if events != [] {
      var n := |events| - 1;
      ReadersAreBuckets(events[..n], account, from, to, reader);
      var before, all := CountedCalls(events[..n], account, from, to, {MarkRead}),
                         CountedCalls(events, account, from, to, {MarkRead});
      assert forall i :: i in all <==> i in before || (i == n && n in all);
    }
  }

  /** The counters of a row, read off the events. */
  ghost predicate CountersAgree(row: DailyRow, events: seq<Event>, account: Bytes, day: int) {
    && row.publishes == Count(events, account, day, day, {Publish, Register, Update})
    && row.unsubscribes == Count(events, account, day, day, {Unsubscribe, Delete})
    && row.subscribesNew == Count(events, account, day, day, {Subscribe})
    && row.retracts == Count(events, account, day, day, {Retract})
    && row.readCount == Count(events, account, day, day, {MarkRead})
    && row.impressions == 0
  }

  /** The reader column of a row, read off the events. */
  ghost predicate ReadersAgree(row: DailyRow, events: seq<Event>, account: Bytes, day: int) {
    WellFormed(row.buckets) && Readers(row.buckets) == ReadersIn(events, account, day, day)
  }

  /** One more event moves the row and the counts together. */
  lemma CountersStep(t: Table, before: seq<Event>, e: Event, account: Bytes, day: int)
    requires CountersAgree(RowAt(t, account, day), before, account, day)
    ensures CountersAgree(RowAt(Bump(t, e), account, day), before + [e], account, day)
  {
    assert (before + [e])[..|before|] == before;
  }

  /** After every run, each daily row's counters agree with the events that were logged. */
  lemma {:induction false} CountersAgreeWithEvents(events: seq<Event>, account: Bytes, day: int)
    ensures CountersAgree(RowAt(TableAfter(events), account, day), events, account, day)
  {
    if events != [] {
      var before, e := events[..|events| - 1], events[|events| - 1];
      CountersAgreeWithEvents(before, account, day);
      CountersStep(TableAfter(before), before, e, account, day);
      assert events == before + [e];
    }
  }

  /** A row exists exactly for the days on which the account had an event. */
  lemma {:induction false} RowsForDaysWithEvents(events: seq<Event>, account: Bytes, day: int)
    ensures (account, day) in TableAfter(events)
            <==> exists e :: e in events && e.account == account && DayOf(e) == day
  {
    if events != [] {
      var before, e := events[..|events| - 1], events[|events| - 1];
      RowsForDaysWithEvents(before, account, day);
      assert events == before + [e];
    }
  }

  predicate IsReading(e: Event, account: Bytes, day: int) {
    InWindow(e, account, day, day) && e.kind == MarkRead && e.bucket.Some?
  }

  lemma ReadersSnoc(before: seq<Event>, e: Event, account: Bytes, day: int)
    ensures ReadersIn(before + [e], account, day, day)
            == ReadersIn(before, account, day, day) + if IsReading(e, account, day) then {Hex(e.bucket.value)} else {}
  {
    assert (before + [e])[..|before|] == before;
  }

  lemma ReadersStep(t: Table, before: seq<Event>, e: Event, account: Bytes, day: int)
    requires ReadersAgree(RowAt(t, account, day), before, account, day)
    ensures ReadersAgree(RowAt(Bump(t, e), account, day), before + [e], account, day)
  {
    var column, column' := RowAt(t, account, day).buckets, RowAt(Bump(t, e), account, day).buckets;
    ReadersSnoc(before, e, account, day);
    if IsReading(e, account, day) {
      assert column' == Added(column, Hex(e.bucket.value));
      AddedReader(column, Hex(e.bucket.value));
    } else {
      assert column' == column;
    }
  }

  /** After every run, splitting the stored column gives back exactly the day's reader buckets. */
  lemma {:induction false} ReadersAgreeWithEvents(events: seq<Event>, account: Bytes, day: int)
    ensures ReadersAgree(RowAt(TableAfter(events), account, day), events, account, day)
  {
    if events == [] {
      EmptyColumn();
    } else {
      var before, e := events[..|events| - 1], events[|events| - 1];
      ReadersAgreeWithEvents(before, account, day);
      ReadersStep(TableAfter(before), before, e, account, day);
      assert events == before + [e];
    }
  }

  // ----- Aggregates over a window of days -----

  /** `SUM(col)` over the rows of days `from..to`. */
  function SumDays(t: Table, account: Bytes, from: int, to: int, col: DailyRow -> nat): nat
    decreases if from > to then 0 else to - from + 1
  {
    if from > to then 0
    else col(RowAt(t, account, from)) + SumDays(t, account, from + 1, to, col)
  }

  /** The `hll_buckets` columns that `GROUP_CONCAT` joins: one per day that has a row. */
  function Columns(t: Table, account: Bytes, from: int, to: int): seq<Bytes>
    decreases if from > to then 0 else to - from + 1
  {
    if from > to then []
    else (if (account, from) in t then [t[(account, from)].buckets] else [])
         + Columns(t, account, from + 1, to)
  }

  lemma {:induction false} CountSplitsDays(events: seq<Event>, account: Bytes, from: int, to: int, kinds: set<Kind>)
    requires from <= to
    ensures Count(events, account, from, to, kinds)
            == Count(events, account, from, from, kinds) + Count(events, account, from + 1, to, kinds)
  {
    if events != [] { CountSplitsDays(events[..|events| - 1], account, from, to, kinds); }
  }

  lemma {:induction false} ReadersSplitDays(events: seq<Event>, account: Bytes, from: int, to: int)
    requires from <= to
    ensures ReadersIn(events, account, from, to)
            == ReadersIn(events, account, from, from) + ReadersIn(events, account, from + 1, to)
  {
    if events != [] { ReadersSplitDays(events[..|events| - 1], account, from, to); }
  }

  lemma {:induction false} EmptyWindow(events: seq<Event>, account: Bytes, from: int, to: int, kinds: set<Kind>)
    requires from > to
    ensures Count(events, account, from, to, kinds) == 0 && ReadersIn(events, account, from, to) == {}
  {
    if events != [] { EmptyWindow(events[..|events| - 1], account, from, to, kinds); }
  }

  lemma {:induction false} NoKindCountsZero(events: seq<Event>, account: Bytes, from: int, to: int)
    ensures Count(events, account, from, to, {}) == 0
  {
    if events != [] { NoKindCountsZero(events[..|events| - 1], account, from, to); }
  }

  /** A column that counts some kinds every day sums to their count over the window. */
  lemma {:induction false} SumCounts(events: seq<Event>, account: Bytes, from: int, to: int,
                                     col: DailyRow -> nat, kinds: set<Kind>)
    requires forall day :: col(RowAt(TableAfter(events), account, day)) == Count(events, account, day, day, kinds)
    ensures SumDays(TableAfter(events), account, from, to, col) == Count(events, account, from, to, kinds)
    decreases if from > to then 0 else to - from + 1
  {
    if from > to {
      EmptyWindow(events, account, from, to, kinds);
    } else {
      SumCounts(events, account, from + 1, to, col, kinds);
      CountSplitsDays(events, account, from, to, kinds);
    }
  }

  lemma JoinCons(column: Bytes, rest: seq<Bytes>)
    ensures Elements(Pieces(Join([column] + rest))) == Readers(column) + Elements(Pieces(Join(rest)))
  {
    if rest == [] {
      EmptyColumn();
    } else {
      assert ([column] + rest)[1..] == rest;
      PiecesAroundComma(column, Join(rest));
    }
  }

  /** Splitting the concatenated columns gives back the union of the daily sets. */
  lemma {:induction false} ConcatIsUnion(events: seq<Event>, account: Bytes, from: int, to: int)
    ensures Elements(Pieces(Join(Columns(TableAfter(events), account, from, to))))
            == ReadersIn(events, account, from, to)
    decreases if from > to then 0 else to - from + 1
  {
    var t := TableAfter(events);
    if from > to {
      EmptyWindow(events, account, from, to, {});
      EmptyColumn();
    } else {
      ConcatIsUnion(events, account, from + 1, to);
      ReadersSplitDays(events, account, from, to);
      ReadersAgreeWithEvents(events, account, from);
      var rest := Columns(t, account, from + 1, to);
      if (account, from) in t {
        JoinCons(t[(account, from)].buckets, rest);
      } else {
        EmptyColumn();
        assert Columns(t, account, from, to) == rest;
      }
    }
  }

  // ----- Bounds on the number of unique readers -----

  lemma {:induction false} ReadersAtMostReads(events: seq<Event>, account: Bytes, from: int, to: int)
    ensures |ReadersIn(events, account, from, to)| <= Count(events, account, from, to, {MarkRead})
  {
    if events != [] { ReadersAtMostReads(events[..|events| - 1], account, from, to); }
  }

  lemma {:induction false} DayReadersInWindow(events: seq<Event>, account: Bytes, from: int, to: int, day: int)
    requires from <= day <= to
    ensures ReadersIn(events, account, day, day) <= ReadersIn(events, account, from, to)
  {
    if events != [] { DayReadersInWindow(events[..|events| - 1], account, from, to, day); }
  }

  /** Windowed unique readers lie between the largest day and the number of reads. */
  lemma UniqueReadersBounds(events: seq<Event>, account: Bytes, from: int, to: int, day: int)
    requires from <= day <= to
    ensures |Pieces(RowAt(TableAfter(events), account, day).buckets)|
            <= |ReadersIn(events, account, from, to)|
            <= Count(events, account, from, to, {MarkRead})
  {
    ReadersAgreeWithEvents(events, account, day);
    SortedSize(Pieces(RowAt(TableAfter(events), account, day).buckets));
    DayReadersInWindow(events, account, from, to, day);
    SubsetSize(ReadersIn(events, account, day, day), ReadersIn(events, account, from, to));
    ReadersAtMostReads(events, account, from, to);
  }

}
