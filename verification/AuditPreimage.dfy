/** The byte string hashed for one audit row: eight parts glued with the ASCII unit separator. */
module AuditPreimage {
  import opened Common
  import opened Text

  const SEP: Byte := 0x1F

  /** "a3chat-channel-audit|v1". */
  const AUDIT_HASH_TAG: Bytes :=
    [0x61, 0x33, 0x63, 0x68, 0x61, 0x74, 0x2D, 0x63, 0x68, 0x61, 0x6E, 0x6E, 0x65, 0x6C,
     0x2D, 0x61, 0x75, 0x64, 0x69, 0x74, 0x7C, 0x76, 0x31]

  const TWO_64: int := 0x1_0000_0000_0000_0000

  type Timestamp = t: int | -0x8000_0000_0000_0000 <= t < 0x8000_0000_0000_0000

  predicate IsLowerHex(b: Byte) { 0x30 <= b <= 0x39 || 0x61 <= b <= 0x66 }

  /** What `blake3::Hash::to_hex` returns. */
  predicate IsHexDigest(d: Bytes) {
    |d| == 64 && forall i :: 0 <= i < |d| ==> IsLowerHex(d[i])
  }

  type HexDigest = d: Bytes | IsHexDigest(d) witness seq(64, _ => 0x30)

  /** The hashed columns of `account_events_log`. */
  datatype Fields = Fields(account: Bytes, kind: Bytes, actor: Option<Bytes>, subject: Option<Bytes>,
                           payload: Option<Bytes>, occurredAt: Timestamp)

  function OrEmpty(o: Option<Bytes>): Bytes {
    if o.Some? then o.value else []
  }

  /** The hash cannot tell an absent column from an empty one. */
  function Canonical(f: Fields): Fields {
    f.(actor := Some(OrEmpty(f.actor)), subject := Some(OrEmpty(f.subject)), payload := Some(OrEmpty(f.payload)))
  }

  // ----- Eight little-endian bytes of a two's-complement integer -----

  function LittleEndian(n: nat, width: nat): (s: Bytes)
    ensures |s| == width
  {
    if width == 0 then [] else [n % 256] + LittleEndian(n / 256, width - 1)
  }

  function FromLittleEndian(s: Bytes): nat {
    if s == [] then 0 else s[0] + 256 * FromLittleEndian(s[1..])
  }

  function Pow256(width: nat): nat {
    if width == 0 then 1 else 256 * Pow256(width - 1)
  }

  lemma {:induction false} LittleEndianRoundTrip(n: nat, width: nat)
    requires n < Pow256(width)
    ensures FromLittleEndian(LittleEndian(n, width)) == n
    decreases width
  {
    if width > 0 {
      LittleEndianRoundTrip(n / 256, width - 1);
      assert LittleEndian(n, width)[1..] == LittleEndian(n / 256, width - 1);
    }
  }

  /** `i64::to_le_bytes`. */
  function TimestampBytes(t: Timestamp): (s: Bytes)
    ensures |s| == 8
  {
    LittleEndian(if t < 0 then t + TWO_64 else t, 8)
  }

  lemma TimestampInjective(t: Timestamp, u: Timestamp)
    requires TimestampBytes(t) == TimestampBytes(u)
    ensures t == u
  {
    assert Pow256(8) == TWO_64 by {
      assert Pow256(4) == 0x1_0000_0000;
      assert Pow256(8) == 256 * (256 * (256 * (256 * Pow256(4))));
    }
    LittleEndianRoundTrip(if t < 0 then t + TWO_64 else t, 8);
    LittleEndianRoundTrip(if u < 0 then u + TWO_64 else u, 8);
  }

  // ----- The preimage -----

  /** Each part is followed by a separator; the timestamp bytes come last. */
  function Glue(parts: seq<Bytes>, last: Bytes): Bytes {
    if parts == [] then last else parts[0] + [SEP] + Glue(parts[1..], last)
  }

  function Parts(f: Fields): seq<Bytes> {
    [f.account, f.kind, OrEmpty(f.actor), OrEmpty(f.subject), OrEmpty(f.payload)]
  }

  function Preimage(prev: Bytes, f: Fields): Bytes {
    AUDIT_HASH_TAG + [SEP] + prev + [SEP] + Glue(Parts(f), TimestampBytes(f.occurredAt))
  }

  predicate SepFree(s: Bytes) { SEP !in s }

  ghost predicate FieldsSepFree(f: Fields) {
    forall p :: p in Parts(f) ==> SepFree(p)
  }

  lemma {:induction false} UnglueFirst(a: Bytes, x: Bytes, b: Bytes, y: Bytes)
    requires SepFree(a) && SepFree(b)
    requires a + [SEP] + x == b + [SEP] + y
    ensures a == b && x == y
  {
    var s, t := a + [SEP] + x, b + [SEP] + y;
    assert s[|a|] == SEP && t[|b|] == SEP;
    assert forall i :: 0 <= i < |a| ==> s[i] == a[i] && a[i] in a;
    assert forall i :: 0 <= i < |b| ==> t[i] == b[i] && b[i] in b;
    assert |a| == |b|;
    assert a == s[..|a|] && b == t[..|b|];
    assert x == s[|a| + 1..] && y == t[|b| + 1..];
  }

  lemma {:induction false} Unglue(ps: seq<Bytes>, x: Bytes, qs: seq<Bytes>, y: Bytes)
    requires |ps| == |qs| && Glue(ps, x) == Glue(qs, y)
    requires forall p :: p in ps ==> SepFree(p)
    requires forall q :: q in qs ==> SepFree(q)
    ensures ps == qs && x == y
    decreases |ps|
  {
    if ps != [] {
      assert ps[0] in ps && qs[0] in qs;
      UnglueFirst(ps[0], Glue(ps[1..], x), qs[0], Glue(qs[1..], y));
      Unglue(ps[1..], x, qs[1..], y);
      assert ps == [ps[0]] + ps[1..] && qs == [qs[0]] + qs[1..];
    }
  }

  /** The previous hash has a fixed width, so it can be read back whatever the columns hold. */
  lemma PrevRecoverable(p: HexDigest, f: Fields, q: HexDigest, g: Fields)
    requires Preimage(p, f) == Preimage(q, g)
    ensures p == q
    ensures Glue(Parts(f), TimestampBytes(f.occurredAt)) == Glue(Parts(g), TimestampBytes(g.occurredAt))
  {
    var n := |AUDIT_HASH_TAG| + 1;
    assert Preimage(p, f)[n..n + 64] == p;
    assert Preimage(q, g)[n..n + 64] == q;
    assert Preimage(p, f)[n + 65..] == Glue(Parts(f), TimestampBytes(f.occurredAt));
    assert Preimage(q, g)[n + 65..] == Glue(Parts(g), TimestampBytes(g.occurredAt));
  }

  lemma PartsDetermineFields(f: Fields, g: Fields)
    requires Parts(f) == Parts(g) && f.occurredAt == g.occurredAt
    ensures Canonical(f) == Canonical(g)
  {}

  lemma {:induction false} GlueEndsInLast(parts: seq<Bytes>, last: Bytes)
    ensures Glue(parts, last) == Glue(parts, []) + last
    decreases |parts|
  {
    if parts != [] {
      GlueEndsInLast(parts[1..], last);
    }
  }

  function Separators(s: Bytes): nat { multiset(s)[SEP] }

  /** Glued parts hold one separator each, and more if and only if some part holds one itself. */
  lemma {:induction false} SeparatorsOfGlue(parts: seq<Bytes>)
    ensures Separators(Glue(parts, [])) >= |parts|
    ensures Separators(Glue(parts, [])) == |parts| <==> forall p :: p in parts ==> SepFree(p)
    decreases |parts|
  {
    if parts != [] {
      SeparatorsOfGlue(parts[1..]);
      assert parts == [parts[0]] + parts[1..];
      assert forall p :: p in parts <==> p == parts[0] || p in parts[1..];
      assert SepFree(parts[0]) <==> Separators(parts[0]) == 0;
      assert Separators(Glue(parts, [])) == Separators(parts[0]) + 1 + Separators(Glue(parts[1..], []));
    }
  }

  /** With endings of equal length, separator-free parts force the other parts to be so too. */
  lemma SepFreeForced(ps: seq<Bytes>, x: Bytes, qs: seq<Bytes>, y: Bytes)
    requires |ps| == |qs| && |x| == |y| && Glue(ps, x) == Glue(qs, y)
    requires forall p :: p in ps ==> SepFree(p)
    ensures forall q :: q in qs ==> SepFree(q)
  {
    GlueEndsInLast(ps, x);
    GlueEndsInLast(qs, y);
    var n := |Glue(ps, [])|;
    assert Glue(ps, []) == Glue(ps, x)[..n] && Glue(qs, []) == Glue(qs, y)[..n];
    SeparatorsOfGlue(ps);
    SeparatorsOfGlue(qs);
  }

  /** If one row's columns are free of the separator, its preimage determines the previous hash
      and every column against any other row, even though the timestamp bytes and the other row's
      columns may contain 0x1F. */
  lemma PreimageInjective(p: HexDigest, f: Fields, q: HexDigest, g: Fields)
    requires FieldsSepFree(f)
    ensures Preimage(p, f) == Preimage(q, g) <==> p == q && Canonical(f) == Canonical(g)
  {
    if Preimage(p, f) == Preimage(q, g) {
      PrevRecoverable(p, f, q, g);
      SepFreeForced(Parts(f), TimestampBytes(f.occurredAt), Parts(g), TimestampBytes(g.occurredAt));
      Unglue(Parts(f), TimestampBytes(f.occurredAt), Parts(g), TimestampBytes(g.occurredAt));
      TimestampInjective(f.occurredAt, g.occurredAt);
      PartsDetermineFields(f, g);
    }
    if p == q && Canonical(f) == Canonical(g) {
      assert Parts(f) == Parts(g);
    }
  }

  // ----- What a separator inside a column allows -----

  function FromParts(parts: seq<Bytes>, t: Timestamp): Fields
    requires |parts| == 5
  {
    Fields(parts[0], parts[1], Some(parts[2]), Some(parts[3]), Some(parts[4]), t)
  }

  /** Columns `i` and `i + 1` joined by the separator, cut at another separator. */
  function Recut(parts: seq<Bytes>, i: nat, a: Bytes, b: Bytes): seq<Bytes>
    requires i + 1 < |parts|
  {
    parts[i := a][i + 1 := b]
  }

  lemma {:induction false} RecutGluesTheSame(parts: seq<Bytes>, i: nat, a: Bytes, b: Bytes, last: Bytes)
    requires i + 1 < |parts| && a + [SEP] + b == parts[i] + [SEP] + parts[i + 1]
    ensures Glue(Recut(parts, i, a, b), last) == Glue(parts, last)
    decreases i
  {
    var cut := Recut(parts, i, a, b);
    if i == 0 {
      var tail := Glue(parts[1..][1..], last);
      assert cut[1..][1..] == parts[1..][1..];
      assert Glue(cut, last) == a + [SEP] + (b + [SEP] + tail) == (a + [SEP] + b) + [SEP] + tail;
      assert Glue(parts, last) == parts[0] + [SEP] + (parts[1] + [SEP] + tail)
             == (parts[0] + [SEP] + parts[1]) + [SEP] + tail;
    } else {
      assert cut[1..] == Recut(parts[1..], i - 1, a, b);
      RecutGluesTheSame(parts[1..], i - 1, a, b, last);
    }
  }

  /** A column with a separator can be cut there, giving its other half to a neighbour. */
  lemma OtherCut(parts: seq<Bytes>, k: nat, last: Bytes) returns (cut: seq<Bytes>)
    requires k < |parts| && |parts| >= 2 && !SepFree(parts[k])
    ensures |cut| == |parts| && cut != parts && Glue(cut, last) == Glue(parts, last)
  {
    var j :| 0 <= j < |parts[k]| && parts[k][j] == SEP;
    var a, b := parts[k][..j], parts[k][j + 1..];
    assert parts[k] == a + [SEP] + b;
    if k + 1 < |parts| {
      var rest := b + [SEP] + parts[k + 1];
      assert a + [SEP] + rest == parts[k] + [SEP] + parts[k + 1];
      RecutGluesTheSame(parts, k, a, rest, last);
      cut := Recut(parts, k, a, rest);
    } else {
      var front := parts[k - 1] + [SEP] + a;
      assert front + [SEP] + b == parts[k - 1] + [SEP] + parts[k];
      RecutGluesTheSame(parts, k - 1, front, b, last);
      cut := Recut(parts, k - 1, front, b);
    }
    assert |cut[k]| < |parts[k]|;
  }

  lemma SeparatorCollides(p: Bytes, f: Fields) returns (g: Fields)
    requires !FieldsSepFree(f)
    ensures Preimage(p, g) == Preimage(p, f) && Canonical(g) != Canonical(f)
  {
    var k :| 0 <= k < 5 && !SepFree(Parts(f)[k]);
    var cut := OtherCut(Parts(f), k, TimestampBytes(f.occurredAt));
    g := FromParts(cut, f.occurredAt);
    assert Parts(g) == cut;
    assert Canonical(g) == Canonical(f) ==> Parts(g) == Parts(f);
  }

  /** The exact condition: a row is the only one with its preimage, up to absent columns, if and
      only if none of its columns holds the separator. */
  lemma UniqueIffSepFree(p: HexDigest, f: Fields)
    ensures FieldsSepFree(f)
            <==> forall g :: Preimage(p, g) == Preimage(p, f) ==> Canonical(g) == Canonical(f)
  {
    if FieldsSepFree(f) {
      forall g | Preimage(p, g) == Preimage(p, f) ensures Canonical(g) == Canonical(f) {
        PreimageInjective(p, f, p, g);
      }
    } else {
      var g := SeparatorCollides(p, f);
    }
  }

  /** The layout, part by part. */
  lemma PreimageLayout(prev: Bytes, f: Fields)
    ensures Preimage(prev, f)
            == AUDIT_HASH_TAG + [0x1F] + prev + [0x1F]
               + (f.account + [0x1F] + (f.kind + [0x1F] + (OrEmpty(f.actor) + [0x1F]
                  + (OrEmpty(f.subject) + [0x1F] + (OrEmpty(f.payload) + [0x1F] + TimestampBytes(f.occurredAt))))))
  {
    var ps: seq<Bytes>, ts: Bytes := Parts(f), TimestampBytes(f.occurredAt);
    assert Glue(ps[4..], ts) == ps[4] + [SEP] + ts by { assert |ps[4..][1..]| == 0; }
    assert Glue(ps[3..], ts) == ps[3] + [SEP] + Glue(ps[4..], ts) by { assert ps[3..][1..] == ps[4..]; }
    assert Glue(ps[2..], ts) == ps[2] + [SEP] + Glue(ps[3..], ts) by { assert ps[2..][1..] == ps[3..]; }
    assert Glue(ps[1..], ts) == ps[1] + [SEP] + Glue(ps[2..], ts) by { assert ps[1..][1..] == ps[2..]; }
    assert Glue(ps, ts) == ps[0] + [SEP] + Glue(ps[1..], ts);
  }

  lemma PreimageIsNotTag(p: Bytes, f: Fields)
    ensures Preimage(p, f) != AUDIT_HASH_TAG
  {}

}
