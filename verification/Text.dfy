/** Byte strings, the ASCII classes of Rust's `u8`, and UTF-8 as defined in
    sections 3 and 4 of RFC 3629. */
module Text {

  type Byte = b: int | 0 <= b < 256
  type Bytes = seq<Byte>

  const AT: Byte := 0x40
  const UNDERSCORE: Byte := 0x5F

  predicate IsUpper(b: Byte) { 0x41 <= b <= 0x5A }

  predicate IsAlphanumeric(b: Byte) {
    0x30 <= b <= 0x39 || 0x41 <= b <= 0x5A || 0x61 <= b <= 0x7A
  }

  predicate IsHexDigit(b: Byte) {
    0x30 <= b <= 0x39 || 0x41 <= b <= 0x46 || 0x61 <= b <= 0x66
  }

  /** `u8::is_ascii_whitespace`: space, tab, line feed, form feed, carriage return. */
  predicate IsWhitespace(b: Byte) {
    b == 0x20 || b == 0x09 || b == 0x0A || b == 0x0C || b == 0x0D
  }

  predicate IsPunctuation(b: Byte) {
    0x21 <= b <= 0x2F || 0x3A <= b <= 0x40 || 0x5B <= b <= 0x60 || 0x7B <= b <= 0x7E
  }

  function LowerByte(b: Byte): Byte {
    if IsUpper(b) then b + 0x20 else b
  }

  /** Two bytes agree up to case if and only if they are equal or the two cases of one letter. */
  lemma LowerByteIff(a: Byte, b: Byte)
    ensures LowerByte(a) == LowerByte(b)
            <==> a == b || (0x41 <= a <= 0x5A && b == a + 0x20) || (0x41 <= b <= 0x5A && a == b + 0x20)
  {}

  /** `to_ascii_lowercase`. */
  function Lower(s: Bytes): Bytes {
    seq(|s|, i requires 0 <= i < |s| => LowerByte(s[i]))
  }

  // ----- UTF-8 -----

  /** A continuation byte, `UTF8-tail` in the grammar of RFC 3629. */
  predicate IsTail(b: Byte) { 0x80 <= b <= 0xBF }

  /** Number of bytes announced by a lead byte; zero for a byte that leads nothing. */
  function LeadWidth(b: Byte): (w: nat)
    ensures w <= 4 && (IsTail(b) ==> w == 0)
  {
    if b <= 0x7F then 1
    else if 0xC2 <= b <= 0xDF then 2
    else if 0xE0 <= b <= 0xEF then 3
    else if 0xF0 <= b <= 0xF4 then 4
    else 0
  }

  /** The second byte rules out overlong forms, surrogates and code points above U+10FFFF. */
  predicate IsSecond(lead: Byte, b: Byte) {
    IsTail(b)
    && (lead == 0xE0 ==> 0xA0 <= b) && (lead == 0xED ==> b <= 0x9F)
    && (lead == 0xF0 ==> 0x90 <= b) && (lead == 0xF4 ==> b <= 0x8F)
  }

  /** A well-formed character of `w` bytes at position `i`. */
  predicate IsCharAt(s: Bytes, i: nat, w: nat)
    requires i < |s|
  {
    && 0 < w && LeadWidth(s[i]) == w && i + w <= |s|
    && (w >= 2 ==> IsSecond(s[i], s[i + 1]))
    && (forall k :: i + 2 <= k < i + w ==> IsTail(s[k]))
  }

  /** Length of the well-formed character at position `i`; zero when there is none. */
  function WidthAt(s: Bytes, i: nat): (w: nat)
    ensures 0 < w ==> i + w <= |s| && w <= 4 && !IsTail(s[i])
    ensures forall k :: i < k < i + w ==> IsTail(s[k])
  {
    if i < |s| && IsCharAt(s, i, LeadWidth(s[i])) then LeadWidth(s[i]) else 0
  }

  /** From position `i` on, `s` is a sequence of well-formed characters. */
  predicate ValidFrom(s: Bytes, i: nat)
    requires i <= |s|
    decreases |s| - i
  {
    i == |s| || (WidthAt(s, i) > 0 && ValidFrom(s, i + WidthAt(s, i)))
  }

  /** `std::str::from_utf8(s).is_ok()`. */
  predicate ValidUtf8(s: Bytes) { ValidFrom(s, 0) }

  /** `str::is_char_boundary`. */
  predicate IsCharBoundary(s: Bytes, i: nat) {
    i == 0 || i == |s| || (i < |s| && !IsTail(s[i]))
  }

  lemma SameWidth(s: Bytes, i: nat, t: Bytes, j: nat)
    requires i < |s| && j < |t| && |s| - i == |t| - j
    requires forall k :: i <= k < |s| ==> s[k] == t[k - i + j]
    ensures WidthAt(s, i) == WidthAt(t, j)
  {
    var w := LeadWidth(s[i]);
    if i + w <= |s| {
      assert w >= 2 ==> s[i + 1] == t[j + 1];
      assert w >= 3 ==> s[i + 2] == t[j + 2];
      assert w >= 4 ==> s[i + 3] == t[j + 3];
    }
  }

  /** Validity from a position on depends only on the bytes from there on. */
  lemma {:induction false} ValidShift(s: Bytes, i: nat, t: Bytes, j: nat)
    requires i <= |s| && j <= |t| && |s| - i == |t| - j
    requires forall k :: i <= k < |s| ==> s[k] == t[k - i + j]
    ensures ValidFrom(s, i) == ValidFrom(t, j)
    decreases |s| - i
  {
    if i < |s| {
      SameWidth(s, i, t, j);
      var w := WidthAt(s, i);
      if w > 0 {
        ValidShift(s, i + w, t, j + w);
      }
    }
  }

  /** The width of a character does not depend on what follows it. */
  lemma WidthOfPrefix(s: Bytes, i: nat, n: nat)
    requires n <= |s| && 0 < WidthAt(s, i) && i + WidthAt(s, i) <= n
    ensures WidthAt(s[..n], i) == WidthAt(s, i)
  {}

  /** Cutting well-formed text at a character boundary leaves two well-formed parts. */
  lemma {:induction false} CutFrom(s: Bytes, i: nat, p: nat)
    requires i <= p <= |s| && ValidFrom(s, i) && IsCharBoundary(s, p)
    ensures ValidFrom(s[..p], i) && ValidFrom(s, p)
    decreases |s| - i
  {
    if i < p {
      var w := WidthAt(s, i);
      assert i + w <= p;
      CutFrom(s, i + w, p);
      WidthOfPrefix(s, i, p);
    }
  }

  lemma SplitAtBoundary(s: Bytes, p: nat)
    requires ValidUtf8(s) && p <= |s| && IsCharBoundary(s, p)
    ensures ValidUtf8(s[..p]) && ValidUtf8(s[p..])
  {
    CutFrom(s, 0, p);
    ValidShift(s, p, s[p..], 0);
  }

  /** Characters are at most four bytes long, so a boundary is never more than three bytes back. */
  lemma {:induction false} BoundaryNearby(s: Bytes, i: nat, p: nat) returns (q: nat)
    requires i <= p <= |s| && ValidFrom(s, i) && IsCharBoundary(s, i)
    ensures i <= q <= p <= q + 3 && IsCharBoundary(s, q)
    decreases |s| - i
  {
    if i == p || p < i + WidthAt(s, i) {
      q := i;
    } else {
      q := BoundaryNearby(s, i + WidthAt(s, i), p);
    }
  }

  lemma SameCharAt(a: Bytes, b: Bytes, i: nat)
    requires i < |a| && WidthAt(a, i) > 0
    ensures WidthAt(a + b, i) == WidthAt(a, i)
  {}

  lemma {:induction false} ConcatFrom(a: Bytes, b: Bytes, i: nat)
    requires i <= |a| && ValidFrom(a, i) && ValidUtf8(b)
    ensures ValidFrom(a + b, i)
    decreases |a| - i
  {
    if i == |a| {
      ValidShift(a + b, i, b, 0);
    } else {
      ConcatFrom(a, b, i + WidthAt(a, i));
      assert (a + b)[..|a|] == a;
      SameCharAt(a, b, i);
    }
  }

  lemma ConcatValid(a: Bytes, b: Bytes)
    requires ValidUtf8(a) && ValidUtf8(b)
    ensures ValidUtf8(a + b)
  {
    ConcatFrom(a, b, 0);
  }

  /** A slice of well-formed text between two character boundaries is well-formed. */
  lemma SliceAtBoundaries(s: Bytes, a: nat, b: nat)
    requires ValidUtf8(s) && a <= b <= |s| && IsCharBoundary(s, a) && IsCharBoundary(s, b)
    ensures ValidUtf8(s[a..b])
  {
    CutFrom(s, 0, a);
    CutFrom(s, a, b);
    ValidShift(s[..b], a, s[a..b], 0);
  }

  lemma {:induction false} LowerValidFrom(s: Bytes, i: nat)
    requires i <= |s| && ValidFrom(s, i)
    ensures ValidFrom(Lower(s), i)
    decreases |s| - i
  {
    if i < |s| {
      assert WidthAt(Lower(s), i) == WidthAt(s, i);
      LowerValidFrom(s, i + WidthAt(s, i));
    }
  }

  lemma LowerIdempotent(s: Bytes)
    ensures Lower(Lower(s)) == Lower(s)
  {}

  lemma {:induction false} AsciiFrom(s: Bytes, i: nat)
    requires i <= |s| && forall k :: 0 <= k < |s| ==> s[k] <= 0x7F
    ensures ValidFrom(s, i)
    decreases |s| - i
  {
    if i < |s| { AsciiFrom(s, i + 1); }
  }

}
