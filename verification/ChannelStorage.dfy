/** The audit and analytics tables of the channel database, updated in one transaction. */
module ChannelStorage {
  import opened Common
  import opened Text
  import opened AuditPreimage
  import opened AuditLog
  import opened ReaderSet
  import opened Metrics
  import opened AuditColumns

  datatype Summary = Summary(dayFrom: int, dayTo: int, subscribesNew: nat, unsubscribes: nat, netSubscribes: int,
                             publishes: nat, retracts: nat, impressions: nat, readCount: nat, uniqueReaders: nat)

  lemma OneMoreEvent(h: Hasher, events: seq<Event>, e: Event)
    ensures Build(h, AllFields(events + [e])) == Append(h, Build(h, AllFields(events)), FieldsOf(e))
    ensures TableAfter(events + [e]) == Bump(TableAfter(events), e)
  {
    var all := AllFields(events + [e]);
    assert all[..|all| - 1] == AllFields(events) && all[|all| - 1] == FieldsOf(e);
    assert (events + [e])[..|events|] == events;
  }

  /** Row `k`, numbered `eventSeq`, is the first whose link does not hold. */
  ghost predicate FirstBroken(h: Hasher, rows: seq<Row>, k: nat, eventSeq: int) {
    && k < |rows| && rows[k].eventSeq == eventSeq && !LinkHolds(h, rows, k)
    && forall i :: 0 <= i < k ==> LinkHolds(h, rows, i)
  }

  /** The calls for the account are the first `n` of all calls. */
  ghost predicate CallsCameFirst(history: seq<Event>, account: Bytes, n: nat) {
    n <= |history| && forall i :: 0 <= i < |history| ==> (history[i].account == account <==> i < n)
  }

  lemma AcceptsIffCallsFirst(h: Hasher, history: seq<Event>, account: Bytes)
    requires var log := Build(h, AllFields(history));
             CollisionFree(h, Hashed(h, log) + Hashed(h, RowsOf(log, account)))
    ensures Chained(h, RowsOf(Build(h, AllFields(history)), account))
            <==> exists n: nat :: CallsCameFirst(history, account, n)
  {
    VerifiesIffEventsFirst(h, AllFields(history), account);
    if n: nat :| AreFirst(AllFields(history), account, n) {
      forall i | 0 <= i < |history| ensures history[i].account == account <==> i < n {
        assert AllFields(history)[i].account == history[i].account;
      }
      assert CallsCameFirst(history, account, n);
    }
    if n: nat :| CallsCameFirst(history, account, n) {
      assert AreFirst(AllFields(history), account, n);
    }
  }

  /** The row of the aggregate query: sums of the counters and the concatenated reader columns. */
  function WindowRow(t: Table, account: Bytes, from: int, to: int): DailyRow {
    DailyRow(SumDays(t, account, from, to, (r: DailyRow) => r.subscribesNew),
             SumDays(t, account, from, to, (r: DailyRow) => r.unsubscribes),
             SumDays(t, account, from, to, (r: DailyRow) => r.publishes),
             SumDays(t, account, from, to, (r: DailyRow) => r.retracts),
             SumDays(t, account, from, to, (r: DailyRow) => r.impressions),
             SumDays(t, account, from, to, (r: DailyRow) => r.readCount),
             Join(Columns(t, account, from, to)))
  }

  /** The summed columns are counts of the events in the window. */
  lemma WindowRowCounts(events: seq<Event>, account: Bytes, from: int, to: int)
    ensures var row := WindowRow(TableAfter(events), account, from, to);
            && row.publishes == Count(events, account, from, to, {Publish, Register, Update})
            && row.unsubscribes == Count(events, account, from, to, {Unsubscribe, Delete})
            && row.subscribesNew == Count(events, account, from, to, {Subscribe})
            && row.retracts == Count(events, account, from, to, {Retract})
            && row.readCount == Count(events, account, from, to, {MarkRead})
            && row.impressions == 0
  {
    forall day ensures CountersAgree(RowAt(TableAfter(events), account, day), events, account, day) {
      CountersAgreeWithEvents(events, account, day);
    }
    SumCounts(events, account, from, to, (r: DailyRow) => r.subscribesNew, {Subscribe});
    SumCounts(events, account, from, to, (r: DailyRow) => r.unsubscribes, {Unsubscribe, Delete});
    SumCounts(events, account, from, to, (r: DailyRow) => r.publishes, {Publish, Register, Update});
    SumCounts(events, account, from, to, (r: DailyRow) => r.retracts, {Retract});
    SumCounts(events, account, from, to, (r: DailyRow) => r.readCount, {MarkRead});
    forall day ensures Count(events, account, day, day, {}) == 0 {
      NoKindCountsZero(events, account, day, day);
    }
    SumCounts(events, account, from, to, (r: DailyRow) => r.impressions, {});
    NoKindCountsZero(events, account, from, to);
  }

  /** Both sums are cast to 32 bits, reread as signed and subtracted. */
  method NetSubscribes(subscribesNew: nat, unsubscribes: nat) returns (net: int)
    ensures net == WrappingSub(subscribesNew, unsubscribes)
  {
    WrappingDifference(subscribesNew, unsubscribes);
    net := WrappingSub(AsI32(AsU32(subscribesNew)), AsI32(AsU32(unsubscribes)));
  }

  /** Splits a comma-joined column and counts the distinct pieces. */
  method CountDistinct(column: Bytes) returns (n: nat)
    ensures n == |Elements(Pieces(column))|
  {
    var pieces := Pieces(column);
    var union := [];
    for i := 0 to |pieces|
      invariant union == Collect(pieces[..i])
    {
      assert pieces[..i + 1][..i] == pieces[..i];
      union := Insert(union, pieces[i]);
    }
    assert pieces[..|pieces|] == pieces;
    CollectElements(pieces);
    SortedSize(union);
    return |union|;
  }

  class ChannelStorage {
    const hasher: Hasher
    var log: seq<Row>
    var metrics: Table
    ghost var history: seq<Event>

    /** Neither table can drift from the calls that were made, nor from the other. */
    ghost predicate Valid()
      reads this
    {
      log == Build(hasher, AllFields(history)) && metrics == TableAfter(history)
    }

    constructor (h: Hasher)
      ensures Valid() && history == [] && hasher == h
    {
      hasher, log, metrics, history := h, [], map[], [];
    }

    /** Part one of `record_event`: the counter row of the day. */
    method BumpDaily(e: Event)
      requires WellFormed(RowAt(metrics, e.account, DayOf(e)).buckets)
      modifies this`metrics
      ensures metrics == Bump(old(metrics), e)
    {
      var key := (e.account, DayOf(e));
      if key !in metrics {
        metrics := metrics[key := EMPTY_ROW];
      }
      var row := metrics[key];
      match e.kind {
        case Publish => row := row.(publishes := row.publishes + 1);
        case Retract => row := row.(retracts := row.retracts + 1);
        case Subscribe => row := row.(subscribesNew := row.subscribesNew + 1);
        case Unsubscribe => row := row.(unsubscribes := row.unsubscribes + 1);
        case MarkRead =>
          row := row.(readCount := row.readCount + 1);
          if e.bucket.Some? {
            var joined := AddReader(row.buckets, Hex(e.bucket.value));
            row := row.(buckets := joined);
          }
        case Register => row := row.(publishes := row.publishes + 1);
        case Update => row := row.(publishes := row.publishes + 1);
        case Delete => row := row.(unsubscribes := row.unsubscribes + 1);
      }
      metrics := metrics[key := row];
    }

    /** Part two of `record_event`: the chained audit row. */
    method AppendAudit(f: Fields) returns (eventSeq: int)
      modifies this`log
      ensures log == Append(hasher, old(log), f) && eventSeq == LastSeq(old(log)) + 1
    {
      var prevHash: Bytes := if log == [] then hasher(AUDIT_HASH_TAG) else log[|log| - 1].integrityHash;
      eventSeq := LastSeq(log) + 1;
      log := log + [Row(eventSeq, f, hasher(Preimage(prevHash, f)))];
    }

    /** `record_event`: both parts, in one transaction. */
    method RecordEvent(e: Event) returns (eventSeq: int)
      requires Valid()
      modifies this
      ensures Valid() && history == old(history) + [e]
      ensures log == Append(hasher, old(log), FieldsOf(e)) && eventSeq == LastSeq(old(log)) + 1
      ensures metrics == Bump(old(metrics), e)
      ensures log[..|log| - 1] == old(log) && log[|log| - 1].eventSeq == eventSeq
      ensures log[|log| - 1].fields == Fields(e.account, KindName(e.kind), e.actor, e.subject, e.payload, e.occurredAt)
    {
      assert WellFormed(RowAt(metrics, e.account, DayOf(e)).buckets) by {
        ReadersAgreeWithEvents(history, e.account, DayOf(e));
      }
      BumpDaily(e);
      eventSeq := AppendAudit(FieldsOf(e));
      OneMoreEvent(hasher, history, e);
      history := history + [e];
    }

    /** `audit_verify`: `Ok` exactly when every link of the account's rows holds from the genesis
        on, otherwise the number of the first row whose link is broken. Of the tables' own history:
        `Ok` exactly when the account's calls, if any, came before everybody else's. */
    method AuditVerify(account: Bytes) returns (r: Result<(), int>)
      ensures r.Ok? <==> Chained(hasher, RowsOf(log, account))
      ensures r.Err? ==> exists k :: FirstBroken(hasher, RowsOf(log, account), k, r.error)
      ensures Valid() && CollisionFree(hasher, Hashed(hasher, log) + Hashed(hasher, RowsOf(log, account))) ==>
                (r.Ok? <==> exists n: nat :: CallsCameFirst(history, account, n))
    {
      if Valid() && CollisionFree(hasher, Hashed(hasher, log) + Hashed(hasher, RowsOf(log, account))) {
        AcceptsIffCallsFirst(hasher, history, account);
      }
      var rows := RowsOf(log, account);
      var prevHash: Bytes := hasher(AUDIT_HASH_TAG);
      var k := 0;
      while k < |rows|
        invariant 0 <= k <= |rows|
        invariant prevHash == PrevHash(hasher, rows, k)
        invariant forall i :: 0 <= i < k ==> LinkHolds(hasher, rows, i)
      {
        var actual := hasher(Preimage(prevHash, rows[k].fields));
        if actual != rows[k].integrityHash {
          assert FirstBroken(hasher, rows, k, rows[k].eventSeq);
          return Err(rows[k].eventSeq);
        }
        prevHash := rows[k].integrityHash;
        k := k + 1;
      }
      return Ok(());
    }

    /** `metrics_summary` over the `windowDays` days that end with the day of `now`. */
    method MetricsSummary(account: Bytes, windowDays: nat, now: Timestamp) returns (s: Summary)
      requires Valid()
      ensures s.dayTo == now / SECONDS_PER_DAY
      ensures s.dayFrom == s.dayTo - (if windowDays == 0 then 0 else windowDays - 1)
      ensures s.publishes == AsU32(Count(history, account, s.dayFrom, s.dayTo, {Publish, Register, Update}))
      ensures s.unsubscribes == AsU32(Count(history, account, s.dayFrom, s.dayTo, {Unsubscribe, Delete}))
      ensures s.subscribesNew == AsU32(Count(history, account, s.dayFrom, s.dayTo, {Subscribe}))
      ensures s.netSubscribes == WrappingSub(Count(history, account, s.dayFrom, s.dayTo, {Subscribe}),
                                             Count(history, account, s.dayFrom, s.dayTo, {Unsubscribe, Delete}))
      ensures s.retracts == AsU32(Count(history, account, s.dayFrom, s.dayTo, {Retract}))
      ensures s.readCount == AsU32(Count(history, account, s.dayFrom, s.dayTo, {MarkRead}))
      ensures s.impressions == 0
      ensures s.uniqueReaders == AsU32(|ReadersIn(history, account, s.dayFrom, s.dayTo)|)
    {
      var to := now / SECONDS_PER_DAY;
      var from := to - (if windowDays == 0 then 0 else windowDays - 1);
      var row := WindowRow(metrics, account, from, to);
      var uniqueReaders := CountDistinct(row.buckets);
      WindowRowCounts(history, account, from, to);
      ConcatIsUnion(history, account, from, to);
      var net := NetSubscribes(row.subscribesNew, row.unsubscribes);
      s := Summary(from, to, AsU32(row.subscribesNew), AsU32(row.unsubscribes), net, AsU32(row.publishes),
                   AsU32(row.retracts), AsU32(row.impressions), AsU32(row.readCount), AsU32(uniqueReaders));
    }
  }

}
