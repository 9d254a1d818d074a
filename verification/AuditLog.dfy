/** The append-only audit log: a hash chain over the rows of all accounts, and a verifier
    that re-walks the rows of one account from the genesis hash.

    BLAKE3 is an arbitrary function into 64-digit hex strings. Where a theorem needs collision
    resistance it asks only that the finitely many byte strings hashed by the two parties
    collide nowhere. */
module AuditLog {
  import opened Text
  import opened AuditPreimage

  type Hasher = Bytes -> HexDigest

  datatype Row = Row(eventSeq: int, fields: Fields, integrityHash: Bytes)

  function Genesis(h: Hasher): HexDigest { h(AUDIT_HASH_TAG) }

  /** The hash that row `i` continues from. */
  function PrevHash(h: Hasher, rows: seq<Row>, i: nat): Bytes
    requires i <= |rows|
  {
    if i == 0 then Genesis(h) else rows[i - 1].integrityHash
  }

  /** The hash a further row would continue from. */
  function Tip(h: Hasher, rows: seq<Row>): Bytes { PrevHash(h, rows, |rows|) }

  function PreimageAt(h: Hasher, rows: seq<Row>, i: nat): Bytes
    requires i < |rows|
  {
    Preimage(PrevHash(h, rows, i), rows[i].fields)
  }

  predicate LinkHolds(h: Hasher, rows: seq<Row>, i: nat)
    requires i < |rows|
  {
    rows[i].integrityHash == h(PreimageAt(h, rows, i))
  }

  /** What `audit_verify` accepts. */
  ghost predicate Chained(h: Hasher, rows: seq<Row>) {
    forall i :: 0 <= i < |rows| ==> LinkHolds(h, rows, i)
  }

  /** The `WHERE account_id = ?` rows, in `event_seq` order. */
  function RowsOf(log: seq<Row>, account: Bytes): (rows: seq<Row>)
    ensures |rows| <= |log|
  {
    if log == [] then [] else
    var rows := RowsOf(log[..|log| - 1], account);
    if log[|log| - 1].fields.account == account then rows + [log[|log| - 1]] else rows
  }

  ghost predicate Ascending(p: seq<nat>) {
    forall i, j :: 0 <= i < j < |p| ==> p[i] < p[j]
  }

  /** `rows` are the account's rows at positions `p` of the log, and it has no others. */
  ghost predicate Selects(rows: seq<Row>, log: seq<Row>, account: Bytes, p: seq<nat>) {
    && |p| == |rows|
    && (forall i :: 0 <= i < |p| ==> p[i] < |log| && rows[i] == log[p[i]] && log[p[i]].fields.account == account)
    && (forall k: nat :: k < |log| && log[k].fields.account == account ==> k in p)
  }

  lemma SelectsNext(rows: seq<Row>, log: seq<Row>, account: Bytes, p: seq<nat>)
    requires log != [] && Selects(rows, log[..|log| - 1], account, p) && Ascending(p)
    ensures var last := log[|log| - 1];
            if last.fields.account == account
            then Selects(rows + [last], log, account, p + [|log| - 1]) && Ascending(p + [|log| - 1])
            else Selects(rows, log, account, p)
  {
    var n := |log| - 1;
    assert forall k: nat :: k in p ==> k in p + [n];
    assert n in p + [n];
  }

  /** The query returns exactly the rows of the account, each as often as the log holds it, in log
      order: there is one position for each. */
  lemma {:induction false} RowsOfSelects(log: seq<Row>, account: Bytes) returns (p: seq<nat>)
    ensures Ascending(p) && Selects(RowsOf(log, account), log, account, p)
  {
    p := [];
    if log != [] {
      var n := |log| - 1;
      p := RowsOfSelects(log[..n], account);
      SelectsNext(RowsOf(log[..n], account), log, account, p);
      if log[n].fields.account == account { p := p + [n]; }
    }
  }

  lemma RowsOfMembers(log: seq<Row>, account: Bytes, r: Row)
    ensures r in RowsOf(log, account) <==> r in log && r.fields.account == account
  {
    var p := RowsOfSelects(log, account);
    if r in RowsOf(log, account) {
      var i :| 0 <= i < |p| && RowsOf(log, account)[i] == r;
      assert log[p[i]] in log;
    }
    if r in log && r.fields.account == account {
      var k: nat :| k < |log| && log[k] == r;
      assert k in p;
    }
  }

  // ----- The writer -----

  function LastSeq(log: seq<Row>): int {
    if log == [] then 0 else log[|log| - 1].eventSeq
  }

  /** The audit half of `record_event`: chain over the newest row of the whole log. */
  function Append(h: Hasher, log: seq<Row>, f: Fields): seq<Row> {
    log + [Row(LastSeq(log) + 1, f, h(Preimage(Tip(h, log), f)))]
  }

  /** The log after any sequence of `record_event` calls, over any accounts. */
  function Build(h: Hasher, events: seq<Fields>): seq<Row> {
    if events == [] then []
    else Append(h, Build(h, events[..|events| - 1]), events[|events| - 1])
  }

  ghost predicate Increasing(log: seq<Row>) {
    forall i, j :: 0 <= i < j < |log| ==> log[i].eventSeq < log[j].eventSeq
  }

  lemma ChainedPrefix(h: Hasher, rows: seq<Row>, n: nat)
    requires n <= |rows| && Chained(h, rows)
    ensures Chained(h, rows[..n])
  {
    forall i | 0 <= i < n ensures LinkHolds(h, rows[..n], i) {
      assert LinkHolds(h, rows, i);
    }
  }

  lemma ChainedSnoc(h: Hasher, rows: seq<Row>, row: Row)
    ensures Chained(h, rows + [row])
            <==> Chained(h, rows) && row.integrityHash == h(Preimage(Tip(h, rows), row.fields))
  {
    var all := rows + [row];
    assert PreimageAt(h, all, |rows|) == Preimage(Tip(h, rows), row.fields);
    assert Chained(h, all) ==> LinkHolds(h, all, |rows|);
    if Chained(h, all) {
      ChainedPrefix(h, all, |rows|);
      assert all[..|rows|] == rows;
    }
    if Chained(h, rows) {
      forall i | 0 <= i < |rows| ensures LinkHolds(h, all, i) {
        assert LinkHolds(h, rows, i);
      }
    }
  }

  /** The writer stores exactly the events it was given, in order, numbered upwards, chained. */
  lemma {:induction false} BuildStoresEvents(h: Hasher, events: seq<Fields>)
    ensures var log := Build(h, events);
            && |log| == |events|
            && (forall i :: 0 <= i < |log| ==> log[i].fields == events[i] && log[i].eventSeq == i + 1)
            && Increasing(log) && Chained(h, log)
  {
    if events != [] {
      var before := events[..|events| - 1];
      BuildStoresEvents(h, before);
      var log := Build(h, before);
      var row := Build(h, events)[|log|];
      assert Build(h, events) == log + [row];
      ChainedSnoc(h, log, row);
    }
  }

  // ----- When the verifier accepts an honest log -----

  /** Everything a party hashes while walking `rows`, the genesis tag included. */
  ghost function Hashed(h: Hasher, rows: seq<Row>): set<Bytes> {
    {AUDIT_HASH_TAG} + set i | 0 <= i < |rows| :: PreimageAt(h, rows, i)
  }

  ghost predicate CollisionFree(h: Hasher, inputs: set<Bytes>) {
    forall p, q :: p in inputs && q in inputs && h(p) == h(q) ==> p == q
  }

  lemma HashedPrefix(h: Hasher, rows: seq<Row>, n: nat)
    requires n <= |rows|
    ensures Hashed(h, rows[..n]) <= Hashed(h, rows)
  {
    forall i | 0 <= i < n ensures PreimageAt(h, rows[..n], i) in Hashed(h, rows) {
      assert PreimageAt(h, rows[..n], i) == PreimageAt(h, rows, i);
    }
  }

  lemma PreimageOfPrefix(h: Hasher, rows: seq<Row>, n: nat, i: nat)
    requires i < n <= |rows|
    ensures PreimageAt(h, rows[..n], i) == PreimageAt(h, rows, i)
  {}

  lemma CollisionFreePrefix(h: Hasher, rows: seq<Row>, n: nat, other: seq<Row>, m: nat)
    requires n <= |rows| && m <= |other| && CollisionFree(h, Hashed(h, rows) + Hashed(h, other))
    ensures CollisionFree(h, Hashed(h, rows[..n]) + Hashed(h, other[..m]))
  {
    HashedPrefix(h, rows, n);
    HashedPrefix(h, other, m);
  }

  /** No link of a chain hashes back to the genesis. */
  lemma TipIsNotGenesis(h: Hasher, rows: seq<Row>)
    requires rows != [] && Chained(h, rows) && CollisionFree(h, Hashed(h, rows))
    ensures Tip(h, rows) != Genesis(h)
  {
    var n := |rows| - 1;
    assert LinkHolds(h, rows, n) && PreimageAt(h, rows, n) in Hashed(h, rows);
    PreimageIsNotTag(PrevHash(h, rows, n), rows[n].fields);
  }

  lemma PrevIsDigest(h: Hasher, rows: seq<Row>, i: nat)
    requires i <= |rows| && Chained(h, rows)
    ensures IsHexDigest(PrevHash(h, rows, i))
  {
    assert i > 0 ==> LinkHolds(h, rows, i - 1);
  }

  /** Equal tips: the last links hash the same byte string and continue from the same hash. */
  lemma LastLinkMatches(h: Hasher, rows: seq<Row>, other: seq<Row>)
    requires Chained(h, rows) && Chained(h, other) && Tip(h, rows) == Tip(h, other)
    requires CollisionFree(h, Hashed(h, rows) + Hashed(h, other))
    requires rows != [] && other != []
    ensures PreimageAt(h, rows, |rows| - 1) == PreimageAt(h, other, |other| - 1)
    ensures Tip(h, rows[..|rows| - 1]) == Tip(h, other[..|other| - 1])
  {
    var n, m := |rows| - 1, |other| - 1;
    assert LinkHolds(h, rows, n) && LinkHolds(h, other, m);
    assert PreimageAt(h, rows, n) in Hashed(h, rows) && PreimageAt(h, other, m) in Hashed(h, other);
    PrevIsDigest(h, rows, n);
    PrevIsDigest(h, other, m);
    PrevRecoverable(PrevHash(h, rows, n), rows[n].fields, PrevHash(h, other, m), other[m].fields);
  }

  /** Two chains with the same tip have the same length and hash the same byte strings. */
  lemma {:induction false} SameTip(h: Hasher, rows: seq<Row>, other: seq<Row>)
    requires Chained(h, rows) && Chained(h, other) && Tip(h, rows) == Tip(h, other)
    requires CollisionFree(h, Hashed(h, rows) + Hashed(h, other))
    ensures |rows| == |other|
    ensures forall i :: 0 <= i < |rows| ==> PreimageAt(h, rows, i) == PreimageAt(h, other, i)
    decreases |rows| + |other|
  {
    if rows == [] || other == [] {
      if rows != [] { TipIsNotGenesis(h, rows); }
      if other != [] { TipIsNotGenesis(h, other); }
    } else {
      var n, m := |rows| - 1, |other| - 1;
      LastLinkMatches(h, rows, other);
      ChainedPrefix(h, rows, n);
      ChainedPrefix(h, other, m);
      CollisionFreePrefix(h, rows, n, other, m);
      SameTip(h, rows[..n], other[..m]);
      forall i | 0 <= i < n ensures PreimageAt(h, rows, i) == PreimageAt(h, other, i) {
        PreimageOfPrefix(h, rows, n, i);
        PreimageOfPrefix(h, other, m, i);
      }
    }
  }

  /** A copy that passes the walk and ends in the same hash, where nothing hashed collides. */
  ghost predicate VerifiedCopy(h: Hasher, rows: seq<Row>, other: seq<Row>) {
    && Chained(h, other) && Tip(h, other) == Tip(h, rows)
    && CollisionFree(h, Hashed(h, rows) + Hashed(h, other))
  }

  /** Row by row the same hashed columns and the same hash. */
  ghost predicate SameColumns(rows: seq<Row>, other: seq<Row>) {
    && |rows| == |other|
    && forall i :: 0 <= i < |rows| ==> Canonical(rows[i].fields) == Canonical(other[i].fields)
                                       && rows[i].integrityHash == other[i].integrityHash
  }

  ghost predicate RowsSepFree(rows: seq<Row>) {
    forall i :: 0 <= i < |rows| ==> FieldsSepFree(rows[i].fields)
  }

  /** Tamper evidence: no edit, insertion, deletion or reordering of separator-free rows that keeps
      the final hash verifies, whatever bytes the editor writes. */
  lemma SameTipSameRows(h: Hasher, rows: seq<Row>, other: seq<Row>)
    requires Chained(h, rows) && VerifiedCopy(h, rows, other) && RowsSepFree(rows)
    ensures SameColumns(rows, other)
  {
    SameTip(h, rows, other);
    forall i | 0 <= i < |rows|
      ensures Canonical(rows[i].fields) == Canonical(other[i].fields)
              && rows[i].integrityHash == other[i].integrityHash
    {
      assert PreimageAt(h, rows, i) == PreimageAt(h, other, i);
      assert LinkHolds(h, rows, i) && LinkHolds(h, other, i);
      PrevIsDigest(h, rows, i);
      PrevIsDigest(h, other, i);
      PreimageInjective(PrevHash(h, rows, i), rows[i].fields, PrevHash(h, other, i), other[i].fields);
    }
  }

  /** Exchanging one row's columns for others with the same preimage changes nothing the walk sees. */
  lemma ExchangeUnnoticed(h: Hasher, rows: seq<Row>, k: nat, g: Fields)
    requires k < |rows| && Chained(h, rows) && CollisionFree(h, Hashed(h, rows))
    requires Preimage(PrevHash(h, rows, k), g) == PreimageAt(h, rows, k)
    ensures VerifiedCopy(h, rows, rows[k := rows[k].(fields := g)])
  {
    var other := rows[k := rows[k].(fields := g)];
    forall i | 0 <= i < |rows| ensures PreimageAt(h, other, i) == PreimageAt(h, rows, i) && LinkHolds(h, other, i) {
      assert PrevHash(h, other, i) == PrevHash(h, rows, i);
      assert LinkHolds(h, rows, i);
    }
    assert Hashed(h, other) <= Hashed(h, rows);
  }

  /** The exact condition: a chain is tamper evident if and only if no column holds the separator. */
  lemma TamperEvidentIffSepFree(h: Hasher, rows: seq<Row>)
    requires Chained(h, rows) && CollisionFree(h, Hashed(h, rows))
    ensures RowsSepFree(rows)
            <==> forall other :: VerifiedCopy(h, rows, other) ==> SameColumns(rows, other)
  {
    if RowsSepFree(rows) {
      forall other | VerifiedCopy(h, rows, other) ensures SameColumns(rows, other) {
        SameTipSameRows(h, rows, other);
      }
    } else {
      var k :| 0 <= k < |rows| && !FieldsSepFree(rows[k].fields);
      var g := SeparatorCollides(PrevHash(h, rows, k), rows[k].fields);
      var other := rows[k := rows[k].(fields := g)];
      ExchangeUnnoticed(h, rows, k, g);
      assert VerifiedCopy(h, rows, other) && Canonical(other[k].fields) != Canonical(rows[k].fields);
    }
  }

  /** In a chain no two positions continue from the same hash. */
  lemma PrevHashesDistinct(h: Hasher, log: seq<Row>, i: nat, j: nat)
    requires i <= |log| && j <= |log| && Chained(h, log) && CollisionFree(h, Hashed(h, log))
    requires PrevHash(h, log, i) == PrevHash(h, log, j)
    ensures i == j
  {
    ChainedPrefix(h, log, i);
    ChainedPrefix(h, log, j);
    HashedPrefix(h, log, i);
    HashedPrefix(h, log, j);
    SameTip(h, log[..i], log[..j]);
  }

  /** The step of the induction: the newest row of the log sits right after the account's others. */
  lemma LastRowIsNext(h: Hasher, log: seq<Row>, account: Bytes, mine: seq<Row>)
    requires log != [] && mine <= log[..|log| - 1]
    requires RowsOf(log, account) == mine + [log[|log| - 1]]
    requires Chained(h, log) && Chained(h, RowsOf(log, account))
    requires CollisionFree(h, Hashed(h, log) + Hashed(h, RowsOf(log, account)))
    ensures |mine| == |log| - 1
  {
    var n, k, rows := |log| - 1, |mine|, RowsOf(log, account);
    assert LinkHolds(h, log, n) && LinkHolds(h, rows, k);
    assert PreimageAt(h, log, n) in Hashed(h, log) && PreimageAt(h, rows, k) in Hashed(h, rows);
    assert PrevHash(h, rows, k) == PrevHash(h, log, k);
    PrevIsDigest(h, log, n);
    PrevIsDigest(h, log, k);
    PrevRecoverable(PrevHash(h, log, n), log[n].fields, PrevHash(h, log, k), log[n].fields);
    PrevHashesDistinct(h, log, n, k);
  }

  lemma RowsOfNext(log: seq<Row>, account: Bytes, mine: seq<Row>)
    requires log != [] && mine == RowsOf(log[..|log| - 1], account)
    ensures |mine| <= |RowsOf(log, account)| && RowsOf(log, account)[..|mine|] == mine
    ensures RowsOf(log, account) == if log[|log| - 1].fields.account == account then mine + [log[|log| - 1]] else mine
  {}

  /** What holds of a log and one account's rows holds before the newest row was written. */
  lemma AcceptedBefore(h: Hasher, log: seq<Row>, account: Bytes, mine: seq<Row>)
    requires log != [] && mine == RowsOf(log[..|log| - 1], account)
    requires Chained(h, log) && Chained(h, RowsOf(log, account))
    requires CollisionFree(h, Hashed(h, log) + Hashed(h, RowsOf(log, account)))
    ensures Chained(h, log[..|log| - 1]) && Chained(h, mine)
    ensures CollisionFree(h, Hashed(h, log[..|log| - 1]) + Hashed(h, mine))
  {
    RowsOfNext(log, account, mine);
    ChainedPrefix(h, log, |log| - 1);
    ChainedPrefix(h, RowsOf(log, account), |mine|);
    CollisionFreePrefix(h, log, |log| - 1, RowsOf(log, account), |mine|);
  }

  /** If one account's rows verify, they are the first rows of the whole log. */
  lemma {:induction false} AcceptedOnlyAsPrefix(h: Hasher, log: seq<Row>, account: Bytes)
    requires Chained(h, log) && Chained(h, RowsOf(log, account))
    requires CollisionFree(h, Hashed(h, log) + Hashed(h, RowsOf(log, account)))
    ensures RowsOf(log, account) <= log
    decreases |log|
  {
    if log != [] {
      var n := |log| - 1;
      var mine := RowsOf(log[..n], account);
      AcceptedBefore(h, log, account, mine);
      AcceptedOnlyAsPrefix(h, log[..n], account);
      RowsOfNext(log, account, mine);
      if log[n].fields.account == account {
        LastRowIsNext(h, log, account, mine);
      }
    }
  }

  lemma PrefixIsAccepted(h: Hasher, log: seq<Row>, rows: seq<Row>)
    requires Chained(h, log) && rows <= log
    ensures Chained(h, rows)
  {
    ChainedPrefix(h, log, |rows|);
    assert log[..|rows|] == rows;
  }

  /** The exact acceptance condition, for every log any sequence of calls can build: one
      account's rows verify if and only if they are the first rows of the whole log. */
  lemma {:induction false} VerifiesIffPrefix(h: Hasher, events: seq<Fields>, log: seq<Row>, account: Bytes)
    requires log == Build(h, events)
    requires CollisionFree(h, Hashed(h, log) + Hashed(h, RowsOf(log, account)))
    ensures Chained(h, RowsOf(log, account)) <==> RowsOf(log, account) <= log
  {
    assert Chained(h, log) by { BuildStoresEvents(h, events); }
    if Chained(h, RowsOf(log, account)) {
      AcceptedOnlyAsPrefix(h, log, account);
    }
    if RowsOf(log, account) <= log {
      PrefixIsAccepted(h, log, RowsOf(log, account));
    }
  }

  /** The account's events are the first `n` of all events. */
  ghost predicate AreFirst(events: seq<Fields>, account: Bytes, n: nat) {
    n <= |events| && forall i :: 0 <= i < |events| ==> (events[i].account == account <==> i < n)
  }

  /** An ascending list that holds every number below `n` begins with them. */
  lemma {:induction false} BeginsWithAll(p: seq<nat>, n: nat)
    requires Ascending(p) && forall k: nat :: k < n ==> k in p
    ensures n <= |p| && forall i :: 0 <= i < n ==> p[i] == i
  {
    if n > 0 {
      BeginsWithAll(p, n - 1);
      assert n - 1 in p;
      var i :| 0 <= i < |p| && p[i] == n - 1;
      assert n - 1 <= i;
      assert 1 < n ==> p[n - 2] < p[n - 1];
    }
  }

  lemma {:induction false} AtLeastIndex(p: seq<nat>, i: nat)
    requires Ascending(p) && i < |p|
    ensures p[i] >= i
  {
    if i > 0 { AtLeastIndex(p, i - 1); }
  }

  lemma FirstEventsFirstRows(rows: seq<Row>, log: seq<Row>, account: Bytes, p: seq<nat>, n: nat)
    requires Selects(rows, log, account, p) && Ascending(p) && n <= |log|
    requires forall k :: 0 <= k < |log| ==> (log[k].fields.account == account <==> k < n)
    ensures rows == log[..n]
  {
    BeginsWithAll(p, n);
    if n < |p| { AtLeastIndex(p, n); }
  }

  lemma FirstRowsFirstEvents(rows: seq<Row>, log: seq<Row>, account: Bytes, p: seq<nat>)
    requires Selects(rows, log, account, p) && Ascending(p) && rows <= log
    ensures forall k :: 0 <= k < |log| ==> (log[k].fields.account == account <==> k < |rows|)
  {
    forall k: nat | k < |rows| ensures k in p {
      assert rows[k] == log[k];
    }
    BeginsWithAll(p, |rows|);
  }

  /** The rows of an account are a prefix of the log if and only if its events came first. */
  lemma RowsFirstIff(log: seq<Row>, events: seq<Fields>, account: Bytes)
    requires |log| == |events| && forall i :: 0 <= i < |log| ==> log[i].fields == events[i]
    ensures RowsOf(log, account) <= log <==> exists n: nat :: AreFirst(events, account, n)
  {
    var rows := RowsOf(log, account);
    var p := RowsOfSelects(log, account);
    if n: nat :| AreFirst(events, account, n) {
      FirstEventsFirstRows(rows, log, account, p, n);
    }
    if rows <= log {
      FirstRowsFirstEvents(rows, log, account, p);
      assert AreFirst(events, account, |rows|);
    }
  }

  /** The same in terms of the calls that were made: the walk over an account accepts if and only if
      that account's events, if it has any, came before everybody else's. */
  lemma VerifiesIffEventsFirst(h: Hasher, events: seq<Fields>, account: Bytes)
    requires var log := Build(h, events); CollisionFree(h, Hashed(h, log) + Hashed(h, RowsOf(log, account)))
    ensures Chained(h, RowsOf(Build(h, events), account)) <==> exists n: nat :: AreFirst(events, account, n)
  {
    BuildStoresEvents(h, events);
    VerifiesIffPrefix(h, events, Build(h, events), account);
    RowsFirstIff(Build(h, events), events, account);
  }

  lemma {:induction false} RowsOfOwnAccount(log: seq<Row>, account: Bytes)
    ensures forall r :: r in RowsOf(log, account) ==> r.fields.account == account
    ensures (forall r :: r in log ==> r.fields.account == account) ==> RowsOf(log, account) == log
  {
    if log != [] {
      RowsOfOwnAccount(log[..|log| - 1], account);
      assert log == log[..|log| - 1] + [log[|log| - 1]];
    }
  }

  /** A log that only ever served one account always verifies, whatever the hash function. */
  lemma SingleAccountVerifies(h: Hasher, events: seq<Fields>, account: Bytes)
    requires forall f :: f in events ==> f.account == account
    ensures Chained(h, RowsOf(Build(h, events), account))
  {
    BuildStoresEvents(h, events);
    RowsOfOwnAccount(Build(h, events), account);
  }

  /** Of all accounts with rows in an honest log, at most one verifies: the intent that every
      honest log verifies fails as soon as a second account records an event. */
  lemma {:induction false} AtMostOneAccountVerifies(h: Hasher, events: seq<Fields>, log: seq<Row>, a: Bytes, b: Bytes)
    requires log == Build(h, events)
    requires CollisionFree(h, Hashed(h, log) + Hashed(h, RowsOf(log, a)))
    requires CollisionFree(h, Hashed(h, log) + Hashed(h, RowsOf(log, b)))
    requires RowsOf(log, a) != [] && Chained(h, RowsOf(log, a))
    requires RowsOf(log, b) != [] && Chained(h, RowsOf(log, b))
    ensures a == b
  {
    VerifiesIffPrefix(h, events, log, a);
    VerifiesIffPrefix(h, events, log, b);
    RowsOfOwnAccount(log, a);
    RowsOfOwnAccount(log, b);
    assert RowsOf(log, a)[0] == log[0] == RowsOf(log, b)[0];
  }

  /** The smallest failure: of any two events of different accounts the second account's log,
      which nobody touched, is rejected. */
  lemma SecondAccountRejected(h: Hasher, f: Fields, g: Fields)
    requires f.account != g.account
    requires var log := Build(h, [f, g]);
             CollisionFree(h, Hashed(h, log) + Hashed(h, RowsOf(log, g.account)))
    ensures var log := Build(h, [f, g]);
            Chained(h, RowsOf(log, f.account)) && !Chained(h, RowsOf(log, g.account))
  {
    var log := Build(h, [f, g]);
    BuildStoresEvents(h, [f, g]);
    assert log[..1][..0] == [] && log[..1] == [log[0]];
    assert RowsOf(log[..1], f.account) == [log[0]] && RowsOf(log[..1], g.account) == [];
    assert RowsOf(log, f.account) == [log[0]] && RowsOf(log, g.account) == [log[1]];
    VerifiesIffPrefix(h, [f, g], log, g.account);
    PrefixIsAccepted(h, log, [log[0]]);
  }

}
