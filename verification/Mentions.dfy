/** The `@`-mention scanner for group message bodies. */
module Mentions {
  import opened Common
  import opened Text

  type UserId = Bytes

  datatype Nickname = Nickname(userId: UserId, name: Bytes)

  /** A resolved mention: `offset` is the byte position of the `@`, `length` counts it. */
  datatype MentionMatch = MentionMatch(userId: UserId, offset: nat, length: nat)

  predicate IsIdentChar(b: Byte) { IsAlphanumeric(b) || b == UNDERSCORE }

  predicate IsTokenBoundary(b: Byte) { IsWhitespace(b) || (IsPunctuation(b) && b != UNDERSCORE) }

  predicate IsNodeId(token: Bytes) {
    |token| == 64 && forall i :: 0 <= i < |token| ==> IsHexDigit(token[i])
  }

  /** The first nickname equal to `lower` up to ASCII case. */
  function FindNickname(lower: Bytes, nicknames: seq<Nickname>): Option<UserId> {
    if nicknames == [] then None
    else if Lower(nicknames[0].name) == lower then Some(nicknames[0].userId)
    else FindNickname(lower, nicknames[1..])
  }

  function ResolveToken(token: Bytes, nicknames: seq<Nickname>): Option<UserId> {
    if token == [] then None
    else if IsNodeId(token) then Some(Lower(token))
    else FindNickname(Lower(token), nicknames)
  }

  ghost predicate IsNickname(n: Nickname, token: Bytes) { Lower(n.name) == Lower(token) }

  lemma {:induction false} FirstNickname(token: Bytes, nicknames: seq<Nickname>, uid: UserId)
    ensures FindNickname(Lower(token), nicknames) == Some(uid)
            <==> exists k :: 0 <= k < |nicknames| && IsNickname(nicknames[k], token) && nicknames[k].userId == uid
                             && forall i :: 0 <= i < k ==> !IsNickname(nicknames[i], token)
  {
    if nicknames != [] {
      FirstNickname(token, nicknames[1..], uid);
      var rest := nicknames[1..];
      if IsNickname(nicknames[0], token) {
        assert nicknames[0].userId == uid ==> IsNickname(nicknames[0], token);
      } else {
        if k :| 0 <= k < |rest| && IsNickname(rest[k], token) && rest[k].userId == uid
                && forall i :: 0 <= i < k ==> !IsNickname(rest[i], token) {
          forall i | 0 <= i < k + 1 ensures !IsNickname(nicknames[i], token) {
            assert i > 0 ==> nicknames[i] == rest[i - 1];
          }
          assert nicknames[k + 1] == rest[k];
        }
        if k :| 0 <= k < |nicknames| && IsNickname(nicknames[k], token) && nicknames[k].userId == uid
                && forall i :: 0 <= i < k ==> !IsNickname(nicknames[i], token) {
          forall i | 0 <= i < k - 1 ensures !IsNickname(rest[i], token) {
            assert rest[i] == nicknames[i + 1];
          }
          assert rest[k - 1] == nicknames[k];
        }
      }
    }
  }

  /** A token names a user when it is a node id, lower-cased, or else the first nickname equal to
      it up to ASCII case; a node id shadows nicknames. */
  lemma ResolveMeaning(token: Bytes, nicknames: seq<Nickname>, uid: UserId)
    ensures ResolveToken(token, nicknames) == Some(uid)
            <==> token != [] &&
                 if IsNodeId(token) then uid == Lower(token)
                 else exists k :: 0 <= k < |nicknames| && IsNickname(nicknames[k], token) && nicknames[k].userId == uid
                                  && forall i :: 0 <= i < k ==> !IsNickname(nicknames[i], token)
  {
    FirstNickname(token, nicknames, uid);
  }

  // ----- What a mention is, position by position -----

  /** `@` at `p` that does not continue an identifier. */
  predicate StartsToken(body: Bytes, p: nat)
    requires p < |body|
  {
    body[p] == AT && (p == 0 || !IsIdentChar(body[p - 1]))
  }

  /** End of the longest run of non-boundary bytes from `p`. */
  function TokenEnd(body: Bytes, p: nat): (e: nat)
    requires p <= |body|
    ensures p <= e <= |body|
    ensures forall i :: p <= i < e ==> !IsTokenBoundary(body[i])
    ensures e < |body| ==> IsTokenBoundary(body[e])
    decreases |body| - p
  {
    if p == |body| || IsTokenBoundary(body[p]) then p else TokenEnd(body, p + 1)
  }

  function MatchAt(body: Bytes, nicknames: seq<Nickname>, p: nat): Option<MentionMatch>
    requires p < |body|
  {
    if !StartsToken(body, p) then None else
    var e := TokenEnd(body, p + 1);
    match ResolveToken(body[p + 1..e], nicknames)
    case None => None
    case Some(uid) => Some(MentionMatch(uid, p, e - p))
  }

  function AsList(o: Option<MentionMatch>): seq<MentionMatch> {
    if o.Some? then [o.value] else []
  }

  /** The mentions at positions below `n`: every position is tried. */
  function MentionsBelow(body: Bytes, nicknames: seq<Nickname>, n: nat): seq<MentionMatch>
    requires n <= |body|
  {
    if n == 0 then []
    else MentionsBelow(body, nicknames, n - 1) + AsList(MatchAt(body, nicknames, n - 1))
  }

  function AllMentions(body: Bytes, nicknames: seq<Nickname>): seq<MentionMatch> {
    MentionsBelow(body, nicknames, |body|)
  }

  // ----- The single-pass scanner -----

  /** Where no token starts, moving on by one byte loses nothing. */
  lemma SkipByte(body: Bytes, nicknames: seq<Nickname>, i: nat)
    requires i < |body| && !StartsToken(body, i)
    ensures MentionsBelow(body, nicknames, i + 1) == MentionsBelow(body, nicknames, i)
  {}

  /** Jumping over a token loses nothing: `@` is itself a boundary byte. */
  lemma {:induction false} SkipToken(body: Bytes, nicknames: seq<Nickname>, i: nat, e: nat)
    requires i <= e <= |body|
    requires forall k :: i <= k < e ==> !IsTokenBoundary(body[k])
    ensures MentionsBelow(body, nicknames, e) == MentionsBelow(body, nicknames, i)
    decreases e
  {
    if i < e {
      SkipToken(body, nicknames, i, e - 1);
      SkipByte(body, nicknames, e - 1);
    }
  }

  /** Up to the end of a token, the answer grows by the token's own match. */
  lemma ScanToken(body: Bytes, nicknames: seq<Nickname>, start: nat)
    requires start < |body| && StartsToken(body, start)
    ensures MentionsBelow(body, nicknames, TokenEnd(body, start + 1))
            == MentionsBelow(body, nicknames, start) + AsList(MatchAt(body, nicknames, start))
  {
    SkipToken(body, nicknames, start + 1, TokenEnd(body, start + 1));
  }

  /** The bytes of a token, `@` included, are well-formed text. */
  lemma TokenIsUtf8(body: Bytes, start: nat)
    requires ValidUtf8(body) && start < |body| && StartsToken(body, start)
    ensures ValidUtf8(body[start..TokenEnd(body, start + 1)])
  {
    SliceAtBoundaries(body, start, TokenEnd(body, start + 1));
  }

  /** The token whose `@` is at `start`, decoded by `from_utf8`; `i` is where it ends. On a
      well-formed body decoding cannot fail. */
  method ReadToken(body: Bytes, start: nat) returns (token: Option<Bytes>, i: nat)
    requires ValidUtf8(body) && start < |body| && StartsToken(body, start)
    ensures i == TokenEnd(body, start + 1)
    ensures token == Some(body[start..i])
  {
    i := start + 1;
    while i < |body| && !IsTokenBoundary(body[i])
      invariant start < i <= |body|
      invariant TokenEnd(body, start + 1) == TokenEnd(body, i)
    {
      i := i + 1;
    }
    TokenIsUtf8(body, start);
    token := if ValidUtf8(body[start..i]) then Some(body[start..i]) else None;
  }

  /** `parse`. */
  method Parse(body: Bytes, nicknames: seq<Nickname>) returns (out: seq<MentionMatch>)
    requires ValidUtf8(body)
    ensures out == AllMentions(body, nicknames)
  {
    out := [];
    var i := 0;
    while i < |body|
      invariant 0 <= i <= |body| && out == MentionsBelow(body, nicknames, i)
    {
      if body[i] != AT {
        SkipByte(body, nicknames, i);
        i := i + 1;
        continue;
      }
      if i > 0 && IsIdentChar(body[i - 1]) {
        SkipByte(body, nicknames, i);
        i := i + 1;
        continue;
      }
      ScanToken(body, nicknames, i);
      var start := i;
      var token;
      token, i := ReadToken(body, i);
      if token.None? {
        assert false;
      }
      var resolved := ResolveToken(token.value[1..], nicknames);
      if resolved.Some? {
        out := out + [MentionMatch(resolved.value, start, i - start)];
      }
    }
  }

  // ----- What the reported list says -----

  /** Position `p` holds a mention of `uid` spelt out in `length` bytes. */
  ghost predicate IsMention(body: Bytes, nicknames: seq<Nickname>, m: MentionMatch) {
    && m.offset + m.length <= |body| && 0 < m.length
    && StartsToken(body, m.offset)
    && (forall i :: m.offset < i < m.offset + m.length ==> !IsTokenBoundary(body[i]))
    && (m.offset + m.length < |body| ==> IsTokenBoundary(body[m.offset + m.length]))
    && ResolveToken(body[m.offset + 1..m.offset + m.length], nicknames) == Some(m.userId)
  }

  lemma MatchAtIsMention(body: Bytes, nicknames: seq<Nickname>, p: nat, m: MentionMatch)
    requires p < |body|
    ensures MatchAt(body, nicknames, p) == Some(m)
            <==> p == m.offset && IsMention(body, nicknames, m)
  {}

  lemma InList(m: MentionMatch, last: Option<MentionMatch>, before: seq<MentionMatch>)
    ensures m in before + AsList(last) <==> last == Some(m) || m in before
  {}

  /** Sound and complete: the list holds exactly the mentions below `n`. */
  lemma {:induction false} ExactlyTheMentions(body: Bytes, nicknames: seq<Nickname>, n: nat, m: MentionMatch)
    requires n <= |body|
    ensures m in MentionsBelow(body, nicknames, n)
            <==> m.offset < n && IsMention(body, nicknames, m)
  {
    if n > 0 {
      MatchAtIsMention(body, nicknames, n - 1, m);
      ExactlyTheMentions(body, nicknames, n - 1, m);
      InList(m, MatchAt(body, nicknames, n - 1), MentionsBelow(body, nicknames, n - 1));
    }
  }

  /** A mention ends before the next token can start. */
  lemma EndsBeforeStart(body: Bytes, nicknames: seq<Nickname>, m: MentionMatch, p: nat)
    requires p < |body| && StartsToken(body, p) && m.offset < p && IsMention(body, nicknames, m)
    ensures m.offset + m.length <= p
  {}

  /** Left to right, without overlap. */
  ghost predicate Disjoint(ms: seq<MentionMatch>) {
    forall i, j :: 0 <= i < j < |ms| ==> ms[i].offset + ms[i].length <= ms[j].offset
  }

  lemma DisjointSnoc(ms: seq<MentionMatch>, m: MentionMatch)
    requires Disjoint(ms) && forall i :: 0 <= i < |ms| ==> ms[i].offset + ms[i].length <= m.offset
    ensures Disjoint(ms + [m])
  {}

  /** Mentions are reported left to right and never overlap. */
  lemma {:induction false} OrderedAndDisjoint(body: Bytes, nicknames: seq<Nickname>, n: nat)
    requires n <= |body|
    ensures Disjoint(MentionsBelow(body, nicknames, n))
  {
    if n > 0 {
      OrderedAndDisjoint(body, nicknames, n - 1);
      var before, last := MentionsBelow(body, nicknames, n - 1), MatchAt(body, nicknames, n - 1);
      if last.Some? {
        forall i | 0 <= i < |before| ensures before[i].offset + before[i].length <= n - 1 {
          ExactlyTheMentions(body, nicknames, n - 1, before[i]);
          EndsBeforeStart(body, nicknames, before[i], n - 1);
        }
        DisjointSnoc(before, last.value);
      } else {
        assert MentionsBelow(body, nicknames, n) == before;
      }
    }
  }

  // ----- ASCII case does not matter -----

  lemma LowerKeepsClasses(b: Byte)
    ensures IsIdentChar(LowerByte(b)) == IsIdentChar(b)
    ensures IsTokenBoundary(LowerByte(b)) == IsTokenBoundary(b)
    ensures IsHexDigit(LowerByte(b)) == IsHexDigit(b)
    ensures LowerByte(b) == AT <==> b == AT
  {}

  lemma ResolveLower(token: Bytes, nicknames: seq<Nickname>)
    ensures ResolveToken(Lower(token), nicknames) == ResolveToken(token, nicknames)
  {
    LowerIdempotent(token);
    if |token| == 64 {
      forall i | 0 <= i < 64 ensures IsHexDigit(Lower(token)[i]) == IsHexDigit(token[i]) {
        LowerKeepsClasses(token[i]);
      }
    }
  }

  lemma {:induction false} TokenEndLower(body: Bytes, p: nat)
    requires p <= |body|
    ensures TokenEnd(Lower(body), p) == TokenEnd(body, p)
    decreases |body| - p
  {
    if p < |body| {
      LowerKeepsClasses(body[p]);
      TokenEndLower(body, p + 1);
    }
  }

  lemma MatchAtLower(body: Bytes, nicknames: seq<Nickname>, p: nat)
    requires p < |body|
    ensures MatchAt(Lower(body), nicknames, p) == MatchAt(body, nicknames, p)
  {
    LowerKeepsClasses(body[p]);
    if p > 0 { LowerKeepsClasses(body[p - 1]); }
    TokenEndLower(body, p + 1);
    var e := TokenEnd(body, p + 1);
    ResolveLower(body[p + 1..e], nicknames);
    assert Lower(body)[p + 1..e] == Lower(body[p + 1..e]);
  }

  /** Lower-casing the body changes no match: same users, same offsets, same lengths. */
  lemma {:induction false} CaseInsensitive(body: Bytes, nicknames: seq<Nickname>, n: nat)
    requires n <= |body|
    ensures MentionsBelow(Lower(body), nicknames, n) == MentionsBelow(body, nicknames, n)
  {
    if n > 0 {
      CaseInsensitive(body, nicknames, n - 1);
      MatchAtLower(body, nicknames, n - 1);
    }
  }

  /** The lower-cased body is again an input of `parse`, and gives the same answer. */
  lemma LoweredBodySameMentions(body: Bytes, nicknames: seq<Nickname>)
    requires ValidUtf8(body)
    ensures ValidUtf8(Lower(body)) && AllMentions(Lower(body), nicknames) == AllMentions(body, nicknames)
  {
    LowerValidFrom(body, 0);
    CaseInsensitive(body, nicknames, |body|);
  }

}
