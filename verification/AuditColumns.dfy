/** The columns that the channel service hands to the audit log: checked ids, event kind names and
    JSON payloads. None of them can hold the separator, so every log the service writes is tamper
    evident. */
module AuditColumns {
  import opened Common
  import opened Text
  import opened AuditPreimage
  import opened AuditLog
  import opened Metrics

  // ----- Ids -----

  function Ascii(s: string): Bytes {
    seq(|s|, i requires 0 <= i < |s| => (s[i] as int % 256) as Byte)
  }

  /** The form of `compute_account_id` and `compute_feed_id`: a prefix and 24 digits of a hash. */
  function HashedId(prefix: string, digest: HexDigest): Bytes {
    Ascii(prefix) + digest[..24]
  }

  lemma PrefixedIsValid(prefix: Bytes, digest: HexDigest)
    requires |prefix| <= 104 && forall i :: 0 <= i < |prefix| ==> 0x20 <= prefix[i] < 0x7F
    ensures IsValidId(prefix + digest[..24])
  {
    assert forall i :: 0 <= i < 24 ==> IsLowerHex(digest[i]);
  }

  lemma HashedIdsAreValid(digest: HexDigest)
    ensures IsValidId(HashedId("acc_", digest)) && IsValidId(HashedId("feed_", digest))
  {
    PrefixedIsValid(Ascii("acc_"), digest);
    PrefixedIsValid(Ascii("feed_"), digest);
  }

  // ----- Event kinds -----

  /** `AccountEventKind::as_str`. */
  function KindName(k: Kind): Bytes {
    match k
    case Publish => Ascii("publish")
    case Retract => Ascii("retract")
    case Subscribe => Ascii("subscribe")
    case Unsubscribe => Ascii("unsubscribe")
    case MarkRead => Ascii("mark_read")
    case Register => Ascii("register")
    case Update => Ascii("update")
    case Delete => Ascii("delete")
  }

  /** The stored name of a kind identifies it and never contains the separator. */
  lemma KindNamesDistinct(a: Kind, b: Kind)
    ensures KindName(a) == KindName(b) ==> a == b
    ensures SepFree(KindName(a))
  {
    assert |KindName(a)| == |KindName(b)| && KindName(a)[0] == KindName(b)[0] ==> a == b;
  }

  // ----- JSON payloads -----

  datatype Json = Bool(b: bool) | Text(s: Bytes) | List(items: seq<Json>) | Object(members: seq<Member>)
  datatype Member = Member(key: Bytes, value: Json)

  /** One byte of a string, as serde_json writes it. */
  function EscapeByte(b: Byte): Bytes {
    if b == 0x22 || b == 0x5C then [0x5C, b]
    else if b == 0x08 then Ascii("\\b")
    else if b == 0x09 then Ascii("\\t")
    else if b == 0x0A then Ascii("\\n")
    else if b == 0x0C then Ascii("\\f")
    else if b == 0x0D then Ascii("\\r")
    else if b < 0x20 then Ascii("\\u00") + [HexDigit(b / 16), HexDigit(b % 16)]
    else [b]
  }

  function Escape(s: Bytes): Bytes {
    if s == [] then [] else EscapeByte(s[0]) + Escape(s[1..])
  }

  function HexValue(b: Byte): int { if b < 0x3A then b - 0x30 else b - 0x57 }

  /** The byte that a short escape stands for. */
  function ShortEscape(b: Byte): Byte {
    if b == 0x62 then 0x08 else if b == 0x74 then 0x09 else if b == 0x6E then 0x0A
    else if b == 0x66 then 0x0C else if b == 0x72 then 0x0D else b
  }

  /** Reads an escaped string back. */
  function Unescape(t: Bytes): seq<int> {
    if t == [] then []
    else if t[0] != 0x5C || |t| == 1 then [t[0]] + Unescape(t[1..])
    else if t[1] == 0x75 && |t| >= 6 then [16 * HexValue(t[4]) + HexValue(t[5])] + Unescape(t[6..])
    else [ShortEscape(t[1])] + Unescape(t[2..])
  }

  lemma EscapedByte(b: Byte)
    ensures var e := EscapeByte(b);
            || (|e| == 1 && b != 0x5C && e[0] == b)
            || (|e| == 2 && e[0] == 0x5C && e[1] != 0x75 && ShortEscape(e[1]) == b)
            || (|e| == 6 && e[0] == 0x5C && e[1] == 0x75 && 16 * HexValue(e[4]) + HexValue(e[5]) == b)
  {}

  lemma UnescapeByte(b: Byte, rest: Bytes)
    ensures Unescape(EscapeByte(b) + rest) == [b] + Unescape(rest)
  {
    var e := EscapeByte(b);
    EscapedByte(b);
    assert (e + rest)[|e|..] == rest;
  }

  /** Escaping loses nothing, so different texts stay different. */
  lemma {:induction false} EscapeRoundTrip(s: Bytes)
    ensures Unescape(Escape(s)) == s
  {
    if s != [] {
      EscapeRoundTrip(s[1..]);
      UnescapeByte(s[0], Escape(s[1..]));
      assert s == [s[0]] + s[1..];
    }
  }

  function Quote(s: Bytes): Bytes { [0x22] + Escape(s) + [0x22] }

  /** `serde_json::to_string`. */
  function Serialize(v: Json): Bytes
    decreases v
  {
    match v
    case Bool(b) => if b then Ascii("true") else Ascii("false")
    case Text(s) => Quote(s)
    case List(items) => [0x5B] + SerializeItems(items) + [0x5D]
    case Object(members) => [0x7B] + SerializeMembers(members) + [0x7D]
  }

  function SerializeItems(items: seq<Json>): Bytes
    decreases items
  {
    if items == [] then []
    else Serialize(items[0]) + (if |items| == 1 then [] else [0x2C]) + SerializeItems(items[1..])
  }

  function SerializeMembers(members: seq<Member>): Bytes
    decreases members
  {
    if members == [] then []
    else Quote(members[0].key) + [0x3A] + Serialize(members[0].value)
         + (if |members| == 1 then [] else [0x2C]) + SerializeMembers(members[1..])
  }

  predicate Printable(s: Bytes) {
    forall i :: 0 <= i < |s| ==> s[i] >= 0x20
  }

  lemma {:induction false} EscapePrintable(s: Bytes)
    ensures Printable(Escape(s))
  {
    if s != [] {
      EscapePrintable(s[1..]);
      assert Printable(EscapeByte(s[0]));
    }
  }

  lemma {:induction false} SerializePrintable(v: Json)
    ensures Printable(Serialize(v))
    decreases v
  {
    match v
    case Bool(b) =>
    case Text(s) => EscapePrintable(s);
    case List(items) => ItemsPrintable(items);
    case Object(members) => MembersPrintable(members);
  }

  lemma {:induction false} ItemsPrintable(items: seq<Json>)
    ensures Printable(SerializeItems(items))
    decreases items
  {
    if items != [] {
      SerializePrintable(items[0]);
      ItemsPrintable(items[1..]);
    }
  }

  lemma {:induction false} MembersPrintable(members: seq<Member>)
    ensures Printable(SerializeMembers(members))
    decreases members
  {
    if members != [] {
      EscapePrintable(members[0].key);
      SerializePrintable(members[0].value);
      MembersPrintable(members[1..]);
    }
  }

  // ----- Logs the service writes -----

  function FieldsOf(e: Event): Fields {
    Fields(e.account, KindName(e.kind), e.actor, e.subject, e.payload, e.occurredAt)
  }

  function AllFields(events: seq<Event>): seq<Fields> {
    seq(|events|, i requires 0 <= i < |events| => FieldsOf(events[i]))
  }

  /** What reaches `record_event` from a service call: checked or hashed ids and serialized JSON. */
  ghost predicate FromService(e: Event) {
    && IsValidId(e.account)
    && (e.actor.Some? ==> IsValidId(e.actor.value))
    && (e.subject.Some? ==> IsValidId(e.subject.value))
    && (e.payload.Some? ==> exists v :: e.payload.value == Serialize(v))
  }

  lemma ServiceColumnsSepFree(e: Event)
    requires FromService(e)
    ensures FieldsSepFree(FieldsOf(e))
  {
    KindNamesDistinct(e.kind, e.kind);
    if e.payload.Some? {
      var v :| e.payload.value == Serialize(v);
      SerializePrintable(v);
    }
  }

  /** Tamper evidence for every log the service can write: any verified copy with the same final
      hash, whatever bytes it holds, records the same events. */
  lemma ServiceLogIsTamperEvident(h: Hasher, events: seq<Event>, other: seq<Row>)
    requires forall i :: 0 <= i < |events| ==> FromService(events[i])
    requires VerifiedCopy(h, Build(h, AllFields(events)), other)
    ensures |other| == |events|
    ensures forall i :: 0 <= i < |events| ==> Canonical(other[i].fields) == Canonical(FieldsOf(events[i]))
  {
    var log := Build(h, AllFields(events));
    BuildStoresEvents(h, AllFields(events));
    forall i | 0 <= i < |log| ensures FieldsSepFree(log[i].fields) {
      ServiceColumnsSepFree(events[i]);
    }
    SameTipSameRows(h, log, other);
  }

}
