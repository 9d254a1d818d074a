/** A set of reader buckets kept as one comma-separated text column. */
module ReaderSet {
  import opened Text

  const COMMA: Byte := 0x2C

  function Prepend(b: Byte, pieces: seq<Bytes>): (r: seq<Bytes>)
    requires pieces != []
    ensures r != []
  {
    [[b] + pieces[0]] + pieces[1..]
  }

  /** `str::split(',')`: always at least one piece, possibly empty pieces. */
  function Split(s: Bytes): (pieces: seq<Bytes>)
    ensures pieces != []
  {
    if s == [] then [[]] else
    var rest := Split(s[1..]);
    if s[0] == COMMA then [[]] + rest else Prepend(s[0], rest)
  }

  lemma PrependConcat(b: Byte, p: seq<Bytes>, q: seq<Bytes>)
    requires p != []
    ensures Prepend(b, p + q) == Prepend(b, p) + q
  {
    assert (p + q)[1..] == p[1..] + q;
  }

  function DropEmpty(pieces: seq<Bytes>): seq<Bytes> {
    if pieces == [] then []
    else if pieces[0] == [] then DropEmpty(pieces[1..])
    else [pieces[0]] + DropEmpty(pieces[1..])
  }

  /** `split(',').filter(|p| !p.is_empty())`. */
  function Pieces(s: Bytes): seq<Bytes> { DropEmpty(Split(s)) }

  /** `[..].join(",")`, and SQL's `GROUP_CONCAT(.., ',')`. */
  function Join(pieces: seq<Bytes>): Bytes {
    if pieces == [] then []
    else if |pieces| == 1 then pieces[0]
    else pieces[0] + [COMMA] + Join(pieces[1..])
  }

  predicate IsToken(s: Bytes) { s != [] && COMMA !in s }

  lemma {:induction false} SplitAroundComma(a: Bytes, b: Bytes)
    ensures Split(a + [COMMA] + b) == Split(a) + Split(b)
    decreases |a|
  {
    var s := a + [COMMA] + b;
    if a == [] {
      assert s[1..] == b;
    } else {
      SplitAroundComma(a[1..], b);
      assert s[0] == a[0] && s[1..] == a[1..] + [COMMA] + b;
      if a[0] == COMMA {
        assert [[]] + (Split(a[1..]) + Split(b)) == [[]] + Split(a[1..]) + Split(b);
      } else {
        PrependConcat(a[0], Split(a[1..]), Split(b));
      }
    }
  }

  lemma {:induction false} DropEmptyConcat(p: seq<Bytes>, q: seq<Bytes>)
    ensures DropEmpty(p + q) == DropEmpty(p) + DropEmpty(q)
    decreases |p|
  {
    if p == [] {
      assert p + q == q;
    } else {
      DropEmptyConcat(p[1..], q);
      assert (p + q)[0] == p[0] && (p + q)[1..] == p[1..] + q;
      assert [p[0]] + (DropEmpty(p[1..]) + DropEmpty(q)) == [p[0]] + DropEmpty(p[1..]) + DropEmpty(q);
    }
  }

  lemma PiecesAroundComma(a: Bytes, b: Bytes)
    ensures Pieces(a + [COMMA] + b) == Pieces(a) + Pieces(b)
  {
    SplitAroundComma(a, b);
    DropEmptyConcat(Split(a), Split(b));
  }

  lemma {:induction false} SplitToken(s: Bytes)
    requires COMMA !in s
    ensures Split(s) == [s]
    decreases |s|
  {
    if s != [] {
      assert s[0] in s;
      SplitToken(s[1..]);
      assert [s[0]] + s[1..] == s;
    }
  }

  /** Splitting undoes joining, for any list of non-empty comma-free pieces. */
  lemma {:induction false} PiecesOfJoin(tokens: seq<Bytes>)
    requires forall t :: t in tokens ==> IsToken(t)
    ensures Pieces(Join(tokens)) == tokens
    decreases |tokens|
  {
    if tokens != [] {
      assert tokens[0] in tokens;
      SplitToken(tokens[0]);
      assert Pieces(tokens[0]) == [tokens[0]] by { assert DropEmpty([tokens[0]]) == [tokens[0]] + DropEmpty([]); }
      if |tokens| > 1 {
        PiecesAroundComma(tokens[0], Join(tokens[1..]));
        PiecesOfJoin(tokens[1..]);
      }
    }
  }

  // ----- `BTreeSet<String>` as a strictly sorted list -----

  /** Byte-wise lexicographic order of strings. */
  predicate Before(a: Bytes, b: Bytes) {
    b != [] && (a == [] || a[0] < b[0] || (a[0] == b[0] && Before(a[1..], b[1..])))
  }

  lemma {:induction false} BeforeTotal(a: Bytes, b: Bytes)
    ensures Before(a, b) || a == b || Before(b, a)
    decreases |a|
  {
    if a != [] && b != [] && a[0] == b[0] {
      BeforeTotal(a[1..], b[1..]);
      assert a == [a[0]] + a[1..] && b == [b[0]] + b[1..];
    }
  }

  lemma {:induction false} BeforeTransitive(a: Bytes, b: Bytes, c: Bytes)
    requires Before(a, b) && Before(b, c)
    ensures Before(a, c)
    decreases |a|
  {
    if a != [] && a[0] == b[0] == c[0] {
      BeforeTransitive(a[1..], b[1..], c[1..]);
    }
  }

  lemma {:induction false} BeforeIrreflexive(a: Bytes)
    ensures !Before(a, a)
    decreases |a|
  {
    if a != [] { BeforeIrreflexive(a[1..]); }
  }

  ghost predicate Sorted(xs: seq<Bytes>) {
    forall i, j :: 0 <= i < j < |xs| ==> Before(xs[i], xs[j])
  }

  ghost function Elements(xs: seq<Bytes>): set<Bytes> { set x | x in xs }

  function Insert(xs: seq<Bytes>, x: Bytes): seq<Bytes> {
    if xs == [] then [x]
    else if xs[0] == x then xs
    else if Before(x, xs[0]) then [x] + xs
    else [xs[0]] + Insert(xs[1..], x)
  }

  lemma {:induction false} InsertElements(xs: seq<Bytes>, x: Bytes)
    ensures Elements(Insert(xs, x)) == Elements(xs) + {x}
  {
    if xs != [] && xs[0] != x && !Before(x, xs[0]) {
      InsertElements(xs[1..], x);
      assert xs == [xs[0]] + xs[1..];
      assert Elements(xs) == {xs[0]} + Elements(xs[1..]);
      var rest := Insert(xs[1..], x);
      assert Elements([xs[0]] + rest) == {xs[0]} + Elements(rest);
    }
  }

  lemma SortedCons(x: Bytes, xs: seq<Bytes>)
    ensures Sorted([x] + xs) <==> Sorted(xs) && forall y :: y in xs ==> Before(x, y)
  {
    var all := [x] + xs;
    if Sorted(all) {
      forall i, j | 0 <= i < j < |xs| ensures Before(xs[i], xs[j]) {
        assert Before(all[i + 1], all[j + 1]);
      }
      forall y | y in xs ensures Before(x, y) {
        var j :| 0 <= j < |xs| && xs[j] == y;
        assert Before(all[0], all[j + 1]);
      }
    }
    if Sorted(xs) && forall y :: y in xs ==> Before(x, y) {
      forall i, j | 0 <= i < j < |all| ensures Before(all[i], all[j]) {
        assert all[j] == xs[j - 1] && xs[j - 1] in xs;
        assert i > 0 ==> all[i] == xs[i - 1];
      }
    }
  }

  lemma {:induction false} InsertSorted(xs: seq<Bytes>, x: Bytes)
    requires Sorted(xs)
    ensures Sorted(Insert(xs, x))
  {
    if xs != [] && xs[0] != x {
      SortedCons(xs[0], xs[1..]);
      assert xs == [xs[0]] + xs[1..];
      BeforeTotal(x, xs[0]);
      if Before(x, xs[0]) {
        forall y | y in xs ensures Before(x, y) {
          if y != xs[0] { BeforeTransitive(x, xs[0], y); }
        }
        SortedCons(x, xs);
      } else {
        InsertSorted(xs[1..], x);
        InsertElements(xs[1..], x);
        var rest := Insert(xs[1..], x);
        forall y | y in rest ensures Before(xs[0], y) {
          assert y in Elements(rest);
        }
        SortedCons(xs[0], rest);
      }
    }
  }

  /** `pieces.collect::<BTreeSet<_>>()`. */
  function Collect(pieces: seq<Bytes>): seq<Bytes> {
    if pieces == [] then [] else Insert(Collect(pieces[..|pieces| - 1]), pieces[|pieces| - 1])
  }

  lemma {:induction false} CollectElements(pieces: seq<Bytes>)
    ensures Elements(Collect(pieces)) == Elements(pieces) && Sorted(Collect(pieces))
  {
    if pieces != [] {
      var before, last := pieces[..|pieces| - 1], pieces[|pieces| - 1];
      CollectElements(before);
      InsertElements(Collect(before), last);
      InsertSorted(Collect(before), last);
      assert pieces == before + [last];
      assert Elements(pieces) == Elements(before) + {last};
    }
  }

  // ----- The column -----

  /** The set a column stands for. */
  ghost function Readers(column: Bytes): set<Bytes> { Elements(Pieces(column)) }

  /** A column the writer can have produced: its pieces are distinct, sorted tokens. */
  ghost predicate WellFormed(column: Bytes) {
    Sorted(Pieces(column)) && forall t :: t in Pieces(column) ==> IsToken(t)
  }

  lemma EmptyColumn()
    ensures WellFormed([]) && Readers([]) == {}
  {
    assert Pieces([]) == DropEmpty([[]]) == [];
  }

  function Added(column: Bytes, hex: Bytes): Bytes {
    if hex in Collect(Pieces(column)) then column else Join(Insert(Collect(Pieces(column)), hex))
  }

  lemma AddedReader(column: Bytes, hex: Bytes)
    requires WellFormed(column) && IsToken(hex)
    ensures WellFormed(Added(column, hex)) && Readers(Added(column, hex)) == Readers(column) + {hex}
  {
    var buckets := Collect(Pieces(column));
    CollectElements(Pieces(column));
    if hex in buckets {
      assert hex in Elements(buckets);
    } else {
      InsertSorted(buckets, hex);
      InsertElements(buckets, hex);
      forall t | t in Insert(buckets, hex) ensures IsToken(t) {
        assert t in Elements(Insert(buckets, hex));
        assert t != hex ==> t in Elements(Pieces(column));
      }
      PiecesOfJoin(Insert(buckets, hex));
    }
  }

  /** Adding one bucket: decode, insert, and write back only if the bucket is new. */
  method AddReader(column: Bytes, hex: Bytes) returns (updated: Bytes)
    requires WellFormed(column) && IsToken(hex)
    ensures WellFormed(updated)
    ensures Readers(updated) == Readers(column) + {hex}
    ensures updated == Added(column, hex)
  {
    var parts := Pieces(column);
    var buckets := [];
    for i := 0 to |parts|
      invariant buckets == Collect(parts[..i])
    {
      assert parts[..i + 1][..i] == parts[..i];
      buckets := Insert(buckets, parts[i]);
    }
    assert parts[..|parts|] == parts;
    AddedReader(column, hex);
    if hex in buckets {
      updated := column;
    } else {
      updated := Join(Insert(buckets, hex));
    }
  }

  /** Distinct pieces: counting the pieces counts the set. */
  lemma {:induction false} SortedSize(xs: seq<Bytes>)
    requires Sorted(xs)
    ensures |Elements(xs)| == |xs|
  {
    if xs != [] {
      assert xs == [xs[0]] + xs[1..];
      SortedCons(xs[0], xs[1..]);
      SortedSize(xs[1..]);
      BeforeIrreflexive(xs[0]);
      assert Elements(xs) == {xs[0]} + Elements(xs[1..]);
    }
  }

}
