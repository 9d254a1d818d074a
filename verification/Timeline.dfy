/** The merged timeline: `limit` items per followed account, sorted and cut to `limit`. */
module Timeline {
  import opened Common

  datatype FeedItem = FeedItem(account: string, feedId: string, sequence: nat, createdAt: int, isRetracted: bool)

  const DEFAULT_FEED_LIST_LIMIT := 20
  const MAX_FEED_LIST_LIMIT := 100

  /** The comparator of `timeline`: sequence descending, then creation time descending. */
  predicate Leq(a: FeedItem, b: FeedItem) {
    a.sequence > b.sequence || (a.sequence == b.sequence && a.createdAt >= b.createdAt)
  }

  ghost predicate Sorted(xs: seq<FeedItem>) {
    forall i, j :: 0 <= i < j < |xs| ==> Leq(xs[i], xs[j])
  }

  // ----- Stable sorting -----

  function Insert(x: FeedItem, ys: seq<FeedItem>): seq<FeedItem> {
    if ys == [] || Leq(x, ys[0]) then [x] + ys else [ys[0]] + Insert(x, ys[1..])
  }

  /** `sort_by`. `StableSortUnique` shows that no other list is a stable sort. */
  function Sort(xs: seq<FeedItem>): seq<FeedItem> {
    if xs == [] then [] else Insert(xs[0], Sort(xs[1..]))
  }

  predicate SameKey(a: FeedItem, b: FeedItem) {
    a.sequence == b.sequence && a.createdAt == b.createdAt
  }

  /** The items with the key of `g`, in order. */
  function WithKey(g: FeedItem, xs: seq<FeedItem>): seq<FeedItem> {
    if xs == [] then []
    else if SameKey(g, xs[0]) then [xs[0]] + WithKey(g, xs[1..])
    else WithKey(g, xs[1..])
  }

  /** Sorted, and items with equal keys keep their order and number. */
  ghost predicate IsStableSort(ys: seq<FeedItem>, xs: seq<FeedItem>) {
    Sorted(ys) && forall g :: WithKey(g, ys) == WithKey(g, xs)
  }

  lemma SortedCons(x: FeedItem, xs: seq<FeedItem>)
    ensures Sorted([x] + xs) <==> Sorted(xs) && forall y :: y in xs ==> Leq(x, y)
  {
    var all := [x] + xs;
    if Sorted(all) {
      assert forall i :: 0 <= i < |xs| ==> xs[i] == all[i + 1];
      forall y | y in xs ensures Leq(x, y) {
        var j :| 0 <= j < |xs| && xs[j] == y;
        assert Leq(all[0], all[j + 1]);
      }
    }
    if Sorted(xs) && forall y :: y in xs ==> Leq(x, y) {
      forall i, j | 0 <= i < j < |all| ensures Leq(all[i], all[j]) {
        assert all[j] == xs[j - 1] && xs[j - 1] in xs;
        assert i > 0 ==> all[i] == xs[i - 1];
      }
    }
  }

  lemma {:induction false} InsertMembers(x: FeedItem, ys: seq<FeedItem>)
    ensures forall z :: z in Insert(x, ys) <==> z == x || z in ys
  {
    if ys != [] && !Leq(x, ys[0]) {
      InsertMembers(x, ys[1..]);
      assert ys == [ys[0]] + ys[1..];
    }
  }

  lemma {:induction false} InsertSorted(x: FeedItem, ys: seq<FeedItem>)
    requires Sorted(ys)
    ensures Sorted(Insert(x, ys))
  {
    if ys == [] {
    } else {
      assert ys == [ys[0]] + ys[1..];
      SortedCons(ys[0], ys[1..]);
      if Leq(x, ys[0]) {
        SortedCons(x, ys);
      } else {
        InsertSorted(x, ys[1..]);
        InsertMembers(x, ys[1..]);
        SortedCons(ys[0], Insert(x, ys[1..]));
      }
    }
  }

  lemma {:induction false} InsertKeepsClasses(g: FeedItem, x: FeedItem, ys: seq<FeedItem>)
    ensures WithKey(g, Insert(x, ys)) == WithKey(g, [x] + ys)
  {
    assert ([x] + ys)[1..] == ys;
    if ys != [] && !Leq(x, ys[0]) {
      InsertKeepsClasses(g, x, ys[1..]);
      assert ([x] + ys[1..])[1..] == ys[1..];
      var rest := Insert(x, ys[1..]);
      assert ([ys[0]] + rest)[1..] == rest;
    }
  }

  lemma {:induction false} SortIsStableSort(xs: seq<FeedItem>)
    ensures IsStableSort(Sort(xs), xs)
  {
    if xs != [] {
      SortIsStableSort(xs[1..]);
      InsertSorted(xs[0], Sort(xs[1..]));
      forall g ensures WithKey(g, Sort(xs)) == WithKey(g, xs) {
        InsertKeepsClasses(g, xs[0], Sort(xs[1..]));
        assert ([xs[0]] + Sort(xs[1..]))[1..] == Sort(xs[1..]);
      }
    }
  }

  lemma {:induction false} WithKeyMembers(g: FeedItem, xs: seq<FeedItem>)
    ensures forall z :: z in WithKey(g, xs) <==> z in xs && SameKey(g, z)
  {
    if xs != [] {
      WithKeyMembers(g, xs[1..]);
      assert xs == [xs[0]] + xs[1..];
    }
  }

  /** The first item of a sorted list belongs to the best class that occurs in it. */
  lemma SameHead(xs: seq<FeedItem>, ys: seq<FeedItem>)
    requires Sorted(xs) && Sorted(ys) && xs != [] && ys != []
    requires forall g :: WithKey(g, xs) == WithKey(g, ys)
    ensures xs[0] == ys[0]
  {
    WithKeyMembers(xs[0], xs);
    WithKeyMembers(xs[0], ys);
    WithKeyMembers(ys[0], xs);
    WithKeyMembers(ys[0], ys);
    assert xs[0] in WithKey(xs[0], ys) && ys[0] in WithKey(ys[0], xs);
    var i :| 0 <= i < |ys| && ys[i] == xs[0];
    var j :| 0 <= j < |xs| && xs[j] == ys[0];
    assert Leq(xs[0], ys[0]) && Leq(ys[0], xs[0]);
    assert WithKey(xs[0], xs)[0] == xs[0] && WithKey(xs[0], ys)[0] == ys[0];
  }

  lemma SameEmptiness(xs: seq<FeedItem>, ys: seq<FeedItem>)
    requires forall g :: WithKey(g, xs) == WithKey(g, ys)
    ensures xs == [] ==> ys == []
  {
    if ys != [] {
      WithKeyMembers(ys[0], ys);
      assert WithKey(ys[0], xs) == WithKey(ys[0], ys);
    }
  }

  /** A stable sort is determined by its input: two lists with equal classes are equal. */
  lemma {:induction false} SortedByClasses(xs: seq<FeedItem>, ys: seq<FeedItem>)
    requires Sorted(xs) && Sorted(ys) && forall g :: WithKey(g, xs) == WithKey(g, ys)
    ensures xs == ys
    decreases |xs|
  {
    if xs == [] || ys == [] {
      SameEmptiness(xs, ys);
      SameEmptiness(ys, xs);
    } else {
      SameHead(xs, ys);
      forall g ensures WithKey(g, xs[1..]) == WithKey(g, ys[1..]) {
        assert WithKey(g, xs) == WithKey(g, ys);
        if SameKey(g, xs[0]) {
          assert WithKey(g, xs)[1..] == WithKey(g, xs[1..]);
          assert WithKey(g, ys)[1..] == WithKey(g, ys[1..]);
        }
      }
      SortedByClasses(xs[1..], ys[1..]);
      assert xs == [xs[0]] + xs[1..] && ys == [ys[0]] + ys[1..];
    }
  }

  lemma StableSortUnique(ys: seq<FeedItem>, xs: seq<FeedItem>)
    requires IsStableSort(ys, xs)
    ensures ys == Sort(xs)
  {
    SortIsStableSort(xs);
    forall g ensures WithKey(g, ys) == WithKey(g, Sort(xs)) {
      assert WithKey(g, ys) == WithKey(g, xs);
    }
    SortedByClasses(ys, Sort(xs));
  }

  // ----- Top-k of top-k -----

  function Merge(xs: seq<FeedItem>, ys: seq<FeedItem>): seq<FeedItem>
    decreases |xs| + |ys|
  {
    if xs == [] then ys
    else if ys == [] then xs
    else if Leq(xs[0], ys[0]) then [xs[0]] + Merge(xs[1..], ys)
    else [ys[0]] + Merge(xs, ys[1..])
  }

  lemma TakeCons<T>(x: T, s: seq<T>, k: nat)
    ensures Take([x] + s, k) == if k == 0 then [] else [x] + Take(s, k - 1)
  {}

  lemma TakePrefix(ys: seq<FeedItem>, zs: seq<FeedItem>, k: nat)
    requires k > 0 && Take(ys, k) == Take(zs, k)
    ensures Take(ys, k - 1) == Take(zs, k - 1)
  {}

  /** The first `k` after an insertion depend only on the first `k` before it. */
  lemma {:induction false} InsertTake(x: FeedItem, ys: seq<FeedItem>, zs: seq<FeedItem>, k: nat)
    requires Take(ys, k) == Take(zs, k)
    ensures Take(Insert(x, ys), k) == Take(Insert(x, zs), k)
    decreases k
  {
    if k > 0 && ys != [] {
      assert ys[0] == Take(ys, k)[0] == Take(zs, k)[0] == zs[0];
      assert ys == [ys[0]] + ys[1..] && zs == [zs[0]] + zs[1..];
      TakeCons(ys[0], ys[1..], k);
      TakeCons(zs[0], zs[1..], k);
      assert Take(ys[1..], k - 1) == Take(ys, k)[1..] == Take(zs[1..], k - 1);
      if Leq(x, ys[0]) {
        TakePrefix(ys, zs, k);
        TakeCons(x, ys, k);
        TakeCons(x, zs, k);
      } else {
        InsertTake(x, ys[1..], zs[1..], k - 1);
        TakeCons(ys[0], Insert(x, ys[1..]), k);
        TakeCons(zs[0], Insert(x, zs[1..]), k);
      }
    } else if k > 0 {
      assert zs == [];
    }
  }

  lemma {:induction false} SortTake(xs: seq<FeedItem>, ys: seq<FeedItem>, zs: seq<FeedItem>, k: nat)
    requires Take(Sort(ys), k) == Take(Sort(zs), k)
    ensures Take(Sort(xs + ys), k) == Take(Sort(xs + zs), k)
    decreases |xs|
  {
    if xs == [] {
      assert xs + ys == ys && xs + zs == zs;
    } else {
      SortTake(xs[1..], ys, zs, k);
      InsertTake(xs[0], Sort(xs[1..] + ys), Sort(xs[1..] + zs), k);
      assert (xs + ys)[1..] == xs[1..] + ys && (xs + zs)[1..] == xs[1..] + zs;
    }
  }

  lemma {:induction false} InsertMerge(x: FeedItem, xs: seq<FeedItem>, ys: seq<FeedItem>)
    requires Sorted([x] + xs)
    ensures Insert(x, Merge(xs, ys)) == Merge([x] + xs, ys)
    decreases |xs| + |ys|
  {
    assert ([x] + xs)[1..] == xs;
    if xs != [] { assert Leq(([x] + xs)[0], ([x] + xs)[1]); }
    if ys != [] && !Leq(x, ys[0]) {
      InsertMerge(x, xs, ys[1..]);
      assert Merge(xs, ys) == [ys[0]] + Merge(xs, ys[1..]);
      assert Merge(xs, ys)[1..] == Merge(xs, ys[1..]);
    }
  }

  /** Sorting a list whose first part is already sorted is merging. */
  lemma {:induction false} SortConcat(xs: seq<FeedItem>, ys: seq<FeedItem>)
    requires Sorted(xs)
    ensures Sort(xs + ys) == Merge(xs, Sort(ys))
    decreases |xs|
  {
    if xs == [] {
      assert xs + ys == ys;
    } else {
      assert xs == [xs[0]] + xs[1..];
      SortedCons(xs[0], xs[1..]);
      SortConcat(xs[1..], ys);
      InsertMerge(xs[0], xs[1..], Sort(ys));
      assert (xs + ys)[1..] == xs[1..] + ys;
    }
  }

  lemma MergeTakesLeft(xs: seq<FeedItem>, ys: seq<FeedItem>, k: nat)
    requires 0 < k && xs != [] && (ys == [] || Leq(xs[0], ys[0]))
    ensures Take(Merge(xs, ys), k) == [xs[0]] + Take(Merge(xs[1..], ys), k - 1)
  {
    assert xs == [xs[0]] + xs[1..];
    assert Merge(xs, ys) == [xs[0]] + Merge(xs[1..], ys);
    TakeCons(xs[0], Merge(xs[1..], ys), k);
  }

  lemma MergeTakesRight(xs: seq<FeedItem>, ys: seq<FeedItem>, k: nat)
    requires 0 < k && xs != [] && ys != [] && !Leq(xs[0], ys[0])
    ensures Take(Merge(xs, ys), k) == [ys[0]] + Take(Merge(xs, ys[1..]), k - 1)
  {
    TakeCons(ys[0], Merge(xs, ys[1..]), k);
  }

  /** An item no better than `k` others cannot reach the first `k`. */
  lemma {:induction false} DropDominated(xs: seq<FeedItem>, r: FeedItem, ys: seq<FeedItem>, k: nat)
    requires k <= |xs| && forall x :: x in xs ==> Leq(x, r)
    ensures Take(Merge(xs, Insert(r, ys)), k) == Take(Merge(xs, ys), k)
    decreases |xs| + |ys|
  {
    if k > 0 {
      var ins := Insert(r, ys);
      assert xs[0] in xs;
      if ys == [] || Leq(xs[0], ys[0]) {
        MergeTakesLeft(xs, ins, k);
        MergeTakesLeft(xs, ys, k);
        DropDominated(xs[1..], r, ys, k - 1);
      } else {
        assert !Leq(r, ys[0]) && ins == [ys[0]] + Insert(r, ys[1..]);
        assert ins[1..] == Insert(r, ys[1..]);
        MergeTakesRight(xs, ins, k);
        MergeTakesRight(xs, ys, k);
        DropDominated(xs, r, ys[1..], k - 1);
      }
    }
  }

  /** Whatever follows the first `k` items of a sorted list can be left out. */
  lemma {:induction false} DropRest(xs: seq<FeedItem>, rest: seq<FeedItem>, ys: seq<FeedItem>, k: nat)
    requires Sorted(xs) && k <= |xs| && forall x, r :: x in xs && r in rest ==> Leq(x, r)
    ensures Take(Sort(xs + (rest + ys)), k) == Take(Sort(xs + ys), k)
    decreases |rest|
  {
    if rest == [] {
      assert rest + ys == ys;
    } else {
      DropRest(xs, rest[1..], ys, k);
      assert (rest + ys)[1..] == rest[1..] + ys && (rest + ys)[0] == rest[0];
      SortConcat(xs, rest + ys);
      SortConcat(xs, rest[1..] + ys);
      DropDominated(xs, rest[0], Sort(rest[1..] + ys), k);
    }
  }

  lemma TakeOneList(xs: seq<FeedItem>, ys: seq<FeedItem>, k: nat)
    requires Sorted(xs)
    ensures Take(Sort(Take(xs, k) + ys), k) == Take(Sort(xs + ys), k)
  {
    if |xs| > k {
      var top, rest := xs[..k], xs[k..];
      forall x, r | x in top && r in rest ensures Leq(x, r) {
        var i :| 0 <= i < k && top[i] == x;
        var j :| 0 <= j < |rest| && rest[j] == r;
        assert Leq(xs[i], xs[k + j]);
      }
      DropRest(top, rest, ys, k);
      assert xs + ys == top + (rest + ys);
    }
  }

  function Flatten(lists: seq<seq<FeedItem>>): seq<FeedItem> {
    if lists == [] then [] else lists[0] + Flatten(lists[1..])
  }

  function TakeEach(lists: seq<seq<FeedItem>>, k: nat): seq<seq<FeedItem>> {
    if lists == [] then [] else [Take(lists[0], k)] + TakeEach(lists[1..], k)
  }

  /** Cutting every sorted list to its best `k` first does not change the best `k` of all. */
  lemma {:induction false} TopOfTops(lists: seq<seq<FeedItem>>, k: nat)
    requires forall l :: l in lists ==> Sorted(l)
    ensures Take(Sort(Flatten(TakeEach(lists, k))), k) == Take(Sort(Flatten(lists)), k)
    decreases |lists|
  {
    if lists != [] {
      assert lists[0] in lists;
      TopOfTops(lists[1..], k);
      var first, cut := Take(lists[0], k), TakeEach(lists[1..], k);
      assert TakeEach(lists, k)[1..] == cut;
      SortTake(first, Flatten(cut), Flatten(lists[1..]), k);
      TakeOneList(lists[0], Flatten(lists[1..]), k);
    }
  }

  // ----- The service call -----

  predicate IsVisible(item: FeedItem, account: string, before: Option<nat>) {
    item.account == account && !item.isRetracted && (before.Some? ==> item.sequence < before.value)
  }

  function Select(feed: seq<FeedItem>, account: string, before: Option<nat>): seq<FeedItem> {
    if feed == [] then []
    else if IsVisible(feed[0], account, before) then [feed[0]] + Select(feed[1..], account, before)
    else Select(feed[1..], account, before)
  }

  /** `WHERE account_id = ? AND sequence < ? AND is_retracted = 0 ORDER BY sequence DESC`. An
      account's sequences are unique, so the second sort key is never consulted. */
  function Visible(feed: seq<FeedItem>, account: string, before: Option<nat>): seq<FeedItem> {
    Sort(Select(feed, account, before))
  }

  function Clamp(n: nat, lo: nat, hi: nat): nat
    requires lo <= hi
  {
    if n < lo then lo else if n > hi then hi else n
  }

  function ListFeedItems(feed: seq<FeedItem>, account: string, before: Option<nat>, limit: nat): seq<FeedItem> {
    Take(Visible(feed, account, before), Clamp(limit, 1, 200))
  }

  function VisibleLists(feed: seq<FeedItem>, accounts: seq<string>, before: Option<nat>): seq<seq<FeedItem>> {
    if accounts == [] then []
    else [Visible(feed, accounts[0], before)] + VisibleLists(feed, accounts[1..], before)
  }

  /** The simple form: every visible item of every followed account, sorted once. */
  function FullTimeline(feed: seq<FeedItem>, accounts: seq<string>, before: Option<nat>): seq<FeedItem> {
    Sort(Flatten(VisibleLists(feed, accounts, before)))
  }

  lemma {:induction false} VisibleListsSorted(feed: seq<FeedItem>, accounts: seq<string>, before: Option<nat>)
    ensures forall l :: l in VisibleLists(feed, accounts, before) ==> Sorted(l)
  {
    if accounts != [] {
      SortIsStableSort(Select(feed, accounts[0], before));
      VisibleListsSorted(feed, accounts[1..], before);
    }
  }

  lemma {:induction false} SortMembers(xs: seq<FeedItem>)
    ensures forall z :: z in Sort(xs) <==> z in xs
  {
    if xs != [] {
      SortMembers(xs[1..]);
      InsertMembers(xs[0], Sort(xs[1..]));
      assert xs == [xs[0]] + xs[1..];
    }
  }

  lemma {:induction false} SelectMembers(feed: seq<FeedItem>, account: string, before: Option<nat>)
    ensures forall x :: x in Select(feed, account, before) <==> x in feed && IsVisible(x, account, before)
  {
    if feed != [] {
      SelectMembers(feed[1..], account, before);
      assert feed == [feed[0]] + feed[1..];
    }
  }

  lemma {:induction false} FlattenVisible(feed: seq<FeedItem>, accounts: seq<string>, before: Option<nat>, x: FeedItem)
    ensures x in Flatten(VisibleLists(feed, accounts, before))
            <==> x in feed && x.account in accounts && IsVisible(x, x.account, before)
  {
    if accounts != [] {
      FlattenVisible(feed, accounts[1..], before, x);
      SortMembers(Select(feed, accounts[0], before));
      SelectMembers(feed, accounts[0], before);
      var lists := VisibleLists(feed, accounts, before);
      assert lists[1..] == VisibleLists(feed, accounts[1..], before);
      assert accounts == [accounts[0]] + accounts[1..];
    }
  }

  lemma {:induction false} InsertOccurrences(x: FeedItem, ys: seq<FeedItem>)
    ensures multiset(Insert(x, ys)) == multiset{x} + multiset(ys)
  {
    if ys != [] && !Leq(x, ys[0]) {
      InsertOccurrences(x, ys[1..]);
      assert ys == [ys[0]] + ys[1..];
    }
  }

  lemma {:induction false} SortOccurrences(xs: seq<FeedItem>)
    ensures multiset(Sort(xs)) == multiset(xs)
  {
    if xs != [] {
      SortOccurrences(xs[1..]);
      InsertOccurrences(xs[0], Sort(xs[1..]));
      assert xs == [xs[0]] + xs[1..];
    }
  }

  lemma {:induction false} SelectOccurrences(feed: seq<FeedItem>, account: string, before: Option<nat>, x: FeedItem)
    ensures multiset(Select(feed, account, before))[x] == if IsVisible(x, account, before) then multiset(feed)[x] else 0
  {
    if feed != [] {
      SelectOccurrences(feed[1..], account, before, x);
      assert feed == [feed[0]] + feed[1..];
    }
  }

  /** How often the timeline shows `x`: once per row and subscription. */
  function Occurrences(feed: seq<FeedItem>, accounts: seq<string>, before: Option<nat>, x: FeedItem): nat {
    if IsVisible(x, x.account, before) then multiset(accounts)[x.account] * multiset(feed)[x] else 0
  }

  lemma OccurrencesCons(feed: seq<FeedItem>, a: string, rest: seq<string>, before: Option<nat>, x: FeedItem)
    ensures Occurrences(feed, [a] + rest, before, x)
            == (if IsVisible(x, a, before) then multiset(feed)[x] else 0) + Occurrences(feed, rest, before, x)
  {
    var n, m := multiset(rest)[x.account], multiset(feed)[x];
    assert multiset([a] + rest)[x.account] == if a == x.account then n + 1 else n;
    assert (n + 1) * m == m + n * m;
  }

  lemma VisibleOccurrences(feed: seq<FeedItem>, account: string, before: Option<nat>, x: FeedItem)
    ensures multiset(Visible(feed, account, before))[x] == if IsVisible(x, account, before) then multiset(feed)[x] else 0
  {
    SelectOccurrences(feed, account, before, x);
    SortOccurrences(Select(feed, account, before));
  }

  lemma {:induction false} FlattenOccurrences(feed: seq<FeedItem>, accounts: seq<string>, before: Option<nat>, x: FeedItem)
    ensures multiset(Flatten(VisibleLists(feed, accounts, before)))[x] == Occurrences(feed, accounts, before, x)
  {
    if accounts != [] {
      var lists, rest := VisibleLists(feed, accounts, before), accounts[1..];
      FlattenOccurrences(feed, rest, before, x);
      VisibleOccurrences(feed, accounts[0], before, x);
      OccurrencesCons(feed, accounts[0], rest, before, x);
      assert accounts == [accounts[0]] + rest;
      assert lists[1..] == VisibleLists(feed, rest, before);
      assert Flatten(lists) == lists[0] + Flatten(lists[1..]);
    }
  }

  /** The full timeline holds exactly the unretracted items of the followed accounts below the
      cursor, each as often as it is stored and its account followed, by sequence and then creation
      time, both descending. */
  lemma FullTimelineContents(feed: seq<FeedItem>, accounts: seq<string>, before: Option<nat>, x: FeedItem)
    ensures x in FullTimeline(feed, accounts, before)
            <==> x in feed && x.account in accounts && !x.isRetracted
                 && (before.Some? ==> x.sequence < before.value)
    ensures multiset(FullTimeline(feed, accounts, before))[x] == Occurrences(feed, accounts, before, x)
    ensures var all := FullTimeline(feed, accounts, before);
            forall i, j :: 0 <= i < j < |all| ==>
              all[i].sequence >= all[j].sequence
              && (all[i].sequence == all[j].sequence ==> all[i].createdAt >= all[j].createdAt)
  {
    var items := Flatten(VisibleLists(feed, accounts, before));
    FlattenVisible(feed, accounts, before, x);
    FlattenOccurrences(feed, accounts, before, x);
    SortMembers(items);
    SortOccurrences(items);
    SortIsStableSort(items);
  }

  lemma {:induction false} FlattenSnoc(lists: seq<seq<FeedItem>>, last: seq<FeedItem>)
    ensures Flatten(lists + [last]) == Flatten(lists) + last
  {
    if lists == [] {
      assert [last][1..] == [] && Flatten([last]) == last + [];
    } else {
      FlattenSnoc(lists[1..], last);
      assert (lists + [last])[1..] == lists[1..] + [last];
    }
  }

  lemma {:induction false} TakenSnoc(feed: seq<FeedItem>, accounts: seq<string>, before: Option<nat>, k: nat, i: nat)
    requires i < |accounts|
    ensures TakeEach(VisibleLists(feed, accounts[..i + 1], before), k)
            == TakeEach(VisibleLists(feed, accounts[..i], before), k) + [Take(Visible(feed, accounts[i], before), k)]
    decreases i
  {
    if i == 0 {
      assert accounts[..1] == [accounts[0]] && accounts[..1][1..] == [] && accounts[..0] == [];
      assert VisibleLists(feed, accounts[..1], before) == [Visible(feed, accounts[0], before)];
      assert [Visible(feed, accounts[0], before)][1..] == [];
    } else {
      var tail := accounts[1..];
      TakenSnoc(feed, tail, before, k, i - 1);
      assert accounts[..i + 1][1..] == tail[..i] && accounts[..i][1..] == tail[..i - 1];
      var l1, l0 := VisibleLists(feed, accounts[..i + 1], before), VisibleLists(feed, accounts[..i], before);
      assert l1[1..] == VisibleLists(feed, tail[..i], before) && l0[1..] == VisibleLists(feed, tail[..i - 1], before);
    }
  }

  /** `timeline`: pull `limit` items per account, sort, truncate. The answer is the first `limit`
      items of the full timeline. */
  method Timeline(feed: seq<FeedItem>, accounts: seq<string>, before: Option<nat>, limit: Option<nat>)
    returns (r: Result<seq<FeedItem>, string>)
    ensures var k := if limit.Some? then limit.value else DEFAULT_FEED_LIST_LIMIT;
            if 1 <= k <= MAX_FEED_LIST_LIMIT then r == Ok(Take(FullTimeline(feed, accounts, before), k)) else r.Err?
  {
    var k := if limit.Some? then limit.value else DEFAULT_FEED_LIST_LIMIT;
    if k == 0 || k > MAX_FEED_LIST_LIMIT {
      return Err("limit not in 1..=100");
    }
    var all := [];
    for i := 0 to |accounts|
      invariant all == Flatten(TakeEach(VisibleLists(feed, accounts[..i], before), k))
    {
      TakenSnoc(feed, accounts, before, k, i);
      FlattenSnoc(TakeEach(VisibleLists(feed, accounts[..i], before), k), Take(Visible(feed, accounts[i], before), k));
      var items := ListFeedItems(feed, accounts[i], before, k);
      all := all + items;
    }
    assert accounts[..|accounts|] == accounts;
    VisibleListsSorted(feed, accounts, before);
    TopOfTops(VisibleLists(feed, accounts, before), k);
    return Ok(Take(Sort(all), k));
  }

  // ----- Asking for the next page -----

  function Below(xs: seq<FeedItem>, c: nat): seq<FeedItem> {
    if xs == [] then []
    else if xs[0].sequence < c then [xs[0]] + Below(xs[1..], c)
    else Below(xs[1..], c)
  }

  lemma {:induction false} BelowConcat(xs: seq<FeedItem>, ys: seq<FeedItem>, c: nat)
    ensures Below(xs + ys, c) == Below(xs, c) + Below(ys, c)
  {
    if xs == [] {
      assert xs + ys == ys;
    } else {
      BelowConcat(xs[1..], ys, c);
      assert (xs + ys)[0] == xs[0] && (xs + ys)[1..] == xs[1..] + ys;
      assert [xs[0]] + (Below(xs[1..], c) + Below(ys, c)) == [xs[0]] + Below(xs[1..], c) + Below(ys, c);
    }
  }

  lemma {:induction false} BelowInsert(x: FeedItem, ys: seq<FeedItem>, c: nat)
    ensures Below(Insert(x, ys), c) == if x.sequence < c then Insert(x, Below(ys, c)) else Below(ys, c)
  {
    assert ([x] + ys)[1..] == ys;
    if ys != [] {
      if !Leq(x, ys[0]) {
        BelowInsert(x, ys[1..], c);
        var rest := Insert(x, ys[1..]);
        assert ([ys[0]] + rest)[1..] == rest;
      } else if ys[0].sequence < c {
        assert Below(ys, c)[0] == ys[0];
      }
    }
  }

  lemma {:induction false} BelowSort(xs: seq<FeedItem>, c: nat)
    ensures Below(Sort(xs), c) == Sort(Below(xs, c))
  {
    if xs != [] {
      BelowSort(xs[1..], c);
      BelowInsert(xs[0], Sort(xs[1..]), c);
      if xs[0].sequence < c {
        assert Below(xs, c)[1..] == Below(xs[1..], c);
      }
    }
  }

  lemma {:induction false} SelectBelow(feed: seq<FeedItem>, account: string, c: nat)
    ensures Select(feed, account, Some(c)) == Below(Select(feed, account, None), c)
  {
    if feed != [] {
      SelectBelow(feed[1..], account, c);
      if IsVisible(feed[0], account, None) {
        assert Select(feed, account, None)[1..] == Select(feed[1..], account, None);
      }
    }
  }

  lemma {:induction false} ListsBelow(feed: seq<FeedItem>, accounts: seq<string>, c: nat)
    ensures Flatten(VisibleLists(feed, accounts, Some(c))) == Below(Flatten(VisibleLists(feed, accounts, None)), c)
  {
    if accounts != [] {
      ListsBelow(feed, accounts[1..], c);
      SelectBelow(feed, accounts[0], c);
      BelowSort(Select(feed, accounts[0], None), c);
      BelowConcat(Visible(feed, accounts[0], None), Flatten(VisibleLists(feed, accounts[1..], None)), c);
      assert VisibleLists(feed, accounts, None)[1..] == VisibleLists(feed, accounts[1..], None);
      assert VisibleLists(feed, accounts, Some(c))[1..] == VisibleLists(feed, accounts[1..], Some(c));
    }
  }

  /** A cursor keeps exactly the items of the full timeline below it. */
  lemma CursorFilters(feed: seq<FeedItem>, accounts: seq<string>, c: nat)
    ensures FullTimeline(feed, accounts, Some(c)) == Below(FullTimeline(feed, accounts, None), c)
  {
    ListsBelow(feed, accounts, c);
    BelowSort(Flatten(VisibleLists(feed, accounts, None)), c);
  }

  lemma {:induction false} BelowMembers(xs: seq<FeedItem>, c: nat)
    ensures forall x :: x in Below(xs, c) <==> x in xs && x.sequence < c
  {
    if xs != [] {
      BelowMembers(xs[1..], c);
      assert xs == [xs[0]] + xs[1..];
    }
  }

  lemma {:induction false} BelowTwice(xs: seq<FeedItem>, b: nat, c: nat)
    requires c <= b
    ensures Below(Below(xs, b), c) == Below(xs, c)
  {
    if xs != [] {
      BelowTwice(xs[1..], b, c);
      if xs[0].sequence < b {
        assert Below(xs, b)[1..] == Below(xs[1..], b);
      }
    }
  }

  lemma {:induction false} BelowAllOrNothing(xs: seq<FeedItem>, c: nat)
    ensures (forall x :: x in xs ==> x.sequence < c) ==> Below(xs, c) == xs
    ensures (forall x :: x in xs ==> x.sequence >= c) ==> Below(xs, c) == []
  {
    if xs != [] {
      BelowAllOrNothing(xs[1..], c);
      assert xs == [xs[0]] + xs[1..];
    }
  }

  lemma {:induction false} ResumeSplit(all: seq<FeedItem>, k: nat)
    requires Sorted(all) && 0 < k < |all|
    ensures Below(all, all[k - 1].sequence) == all[k..] <==> all[k].sequence < all[k - 1].sequence
  {
    var c := all[k - 1].sequence;
    assert all == all[..k] + all[k..];
    BelowConcat(all[..k], all[k..], c);
    forall x | x in all[..k] ensures x.sequence >= c {
      var i :| 0 <= i < k && all[i] == x;
      assert i < k - 1 ==> Leq(all[i], all[k - 1]);
    }
    BelowAllOrNothing(all[..k], c);
    if all[k].sequence < c {
      forall x | x in all[k..] ensures x.sequence < c {
        var j :| 0 <= j < |all[k..]| && all[k..][j] == x;
        assert j > 0 ==> Leq(all[k], all[k + j]);
      }
      BelowAllOrNothing(all[k..], c);
    } else {
      BelowMembers(all[k..], c);
      assert all[k] == all[k..][0];
    }
  }

  /** The smallest loss: two accounts whose newest items share a sequence, shown one per page. */
  lemma TieIsLost(x: FeedItem, y: FeedItem)
    requires x.account != y.account && x.sequence == y.sequence && !x.isRetracted && !y.isRetracted
    ensures var feed, accounts := [x, y], [x.account, y.account];
            var all := FullTimeline(feed, accounts, None);
            && x in all && y in all && x != y
            && FullTimeline(feed, accounts, Some(all[0].sequence)) == []
  {
    var feed, accounts := [x, y], [x.account, y.account];
    var all := FullTimeline(feed, accounts, None);
    FullTimelineContents(feed, accounts, None, x);
    FullTimelineContents(feed, accounts, None, y);
    CursorFilters(feed, accounts, x.sequence);
    forall z | z in all ensures z.sequence == x.sequence {
      FullTimelineContents(feed, accounts, None, z);
    }
    BelowAllOrNothing(all, x.sequence);
  }

  /** A cursor taken from the list itself keeps exactly the items of the list below it. */
  lemma CursorBelow(feed: seq<FeedItem>, accounts: seq<string>, before: Option<nat>, c: nat, i: nat)
    requires i < |FullTimeline(feed, accounts, before)| && FullTimeline(feed, accounts, before)[i].sequence == c
    ensures FullTimeline(feed, accounts, Some(c)) == Below(FullTimeline(feed, accounts, before), c)
  {
    var whole, all := FullTimeline(feed, accounts, None), FullTimeline(feed, accounts, before);
    CursorFilters(feed, accounts, c);
    if before.Some? {
      CursorFilters(feed, accounts, before.value);
      BelowMembers(whole, before.value);
      assert all[i] in all;
      BelowTwice(whole, before.value, c);
    }
  }

  /** Passing the last shown sequence as the next cursor resumes exactly where the page stopped if
      and only if the first unshown item has a smaller sequence: ties across accounts are lost. */
  lemma NextPageResumesIffNoTie(feed: seq<FeedItem>, accounts: seq<string>, before: Option<nat>, k: nat)
    requires 0 < k < |FullTimeline(feed, accounts, before)|
    ensures var all := FullTimeline(feed, accounts, before);
            var cursor := all[k - 1].sequence;
            FullTimeline(feed, accounts, Some(cursor)) == all[k..] <==> all[k].sequence < cursor
  {
    var all := FullTimeline(feed, accounts, before);
    CursorBelow(feed, accounts, before, all[k - 1].sequence, k - 1);
    SortIsStableSort(Flatten(VisibleLists(feed, accounts, before)));
    ResumeSplit(all, k);
  }

  // ----- Walking through all pages -----

  /** Where the page that starts at `i` ends. */
  function PageEnd(all: seq<FeedItem>, k: nat, i: nat): (j: nat)
    requires 0 < k && i < |all|
    ensures i < j <= |all|
  {
    if i + k <= |all| then i + k else |all|
  }

  /** The first position from `j` on with a sequence below `c`. */
  function SkipTies(all: seq<FeedItem>, j: nat, c: nat): (m: nat)
    requires j <= |all|
    ensures j <= m <= |all|
    decreases |all| - j
  {
    if j < |all| && all[j].sequence >= c then SkipTies(all, j + 1, c) else j
  }

  /** Where the page after the one at `i` starts, the last shown sequence being the cursor. */
  function NextStart(all: seq<FeedItem>, k: nat, i: nat): (m: nat)
    requires 0 < k && i < |all|
    ensures i < m <= |all|
  {
    SkipTies(all, PageEnd(all, k, i), all[PageEnd(all, k, i) - 1].sequence)
  }

  /** Where the pages of a walk from `i` start. */
  function Starts(all: seq<FeedItem>, k: nat, i: nat): seq<nat>
    requires 0 < k && i <= |all|
    decreases |all| - i
  {
    if i == |all| then [] else [i] + Starts(all, k, NextStart(all, k, i))
  }

  lemma {:induction false} SkippedAreTies(all: seq<FeedItem>, j: nat, c: nat, m: nat)
    requires Sorted(all) && j <= m < |all|
    ensures m < SkipTies(all, j, c) <==> all[m].sequence >= c
    decreases |all| - j
  {
    if j < m {
      assert Leq(all[j], all[m]);
      if all[j].sequence >= c { SkippedAreTies(all, j + 1, c, m); }
    }
  }

  lemma SplitBelow(all: seq<FeedItem>, m: nat, c: nat)
    requires m <= |all|
    requires forall i :: 0 <= i < m ==> all[i].sequence >= c
    requires forall i :: m <= i < |all| ==> all[i].sequence < c
    ensures Below(all, c) == all[m..]
  {
    BelowAllOrNothing(all[..m], c);
    BelowAllOrNothing(all[m..], c);
    BelowConcat(all[..m], all[m..], c);
    assert all == all[..m] + all[m..];
  }

  lemma BelowIsSuffix(all: seq<FeedItem>, j: nat, c: nat)
    requires Sorted(all) && 0 < j <= |all| && all[j - 1].sequence == c
    ensures Below(all, c) == all[SkipTies(all, j, c)..]
  {
    forall i | 0 <= i < |all| ensures i < SkipTies(all, j, c) <==> all[i].sequence >= c {
      if i < j - 1 { assert Leq(all[i], all[j - 1]); }
      if i >= j { SkippedAreTies(all, j, c, i); }
    }
    SplitBelow(all, SkipTies(all, j, c), c);
  }

  /** The service's answer under the cursor is the rest of the list from the next start on. */
  lemma CursorIsNextStart(feed: seq<FeedItem>, accounts: seq<string>, before: Option<nat>, k: nat, i: nat)
    requires 0 < k && i < |FullTimeline(feed, accounts, before)|
    ensures var all := FullTimeline(feed, accounts, before);
            FullTimeline(feed, accounts, Some(all[PageEnd(all, k, i) - 1].sequence)) == all[NextStart(all, k, i)..]
  {
    var all := FullTimeline(feed, accounts, before);
    var j := PageEnd(all, k, i);
    var c := all[j - 1].sequence;
    CursorBelow(feed, accounts, before, c, j - 1);
    SortIsStableSort(Flatten(VisibleLists(feed, accounts, before)));
    BelowIsSuffix(all, j, c);
  }

  lemma {:induction false} StartsFrom(all: seq<FeedItem>, k: nat, i: nat)
    requires 0 < k && i <= |all|
    ensures forall s :: s in Starts(all, k, i) ==> i <= s < |all|
    decreases |all| - i
  {
    if i < |all| { StartsFrom(all, k, NextStart(all, k, i)); }
  }

  /** Some page of the walk from `i` shows position `m`. */
  ghost predicate Shown(all: seq<FeedItem>, k: nat, i: nat, m: nat)
    requires 0 < k && i <= |all|
  {
    exists s :: s in Starts(all, k, i) && s < |all| && s <= m < PageEnd(all, k, s)
  }

  /** Some page of the walk from `i` ends before position `m` with an item of the same sequence. */
  ghost predicate Tied(all: seq<FeedItem>, k: nat, i: nat, m: nat)
    requires 0 < k && i <= |all| && m < |all|
  {
    exists s :: s in Starts(all, k, i) && s < |all| && PageEnd(all, k, s) <= m
                && all[m].sequence == all[PageEnd(all, k, s) - 1].sequence
  }

  lemma ShownUnfold(all: seq<FeedItem>, k: nat, i: nat, m: nat)
    requires 0 < k && i < |all| && m < |all|
    ensures Shown(all, k, i, m) <==> i <= m < PageEnd(all, k, i) || Shown(all, k, NextStart(all, k, i), m)
    ensures Tied(all, k, i, m)
            <==> (PageEnd(all, k, i) <= m && all[m].sequence == all[PageEnd(all, k, i) - 1].sequence)
                 || Tied(all, k, NextStart(all, k, i), m)
  {
    var rest := Starts(all, k, NextStart(all, k, i));
    assert forall s :: s in Starts(all, k, i) <==> s == i || s in rest;
  }

  /** Pages start where the walk has not been yet. */
  lemma NothingBefore(all: seq<FeedItem>, k: nat, i: nat, m: nat)
    requires 0 < k && i <= |all| && m < i && m < |all|
    ensures !Shown(all, k, i, m) && !Tied(all, k, i, m)
  {
    StartsFrom(all, k, i);
  }

  lemma {:induction false} ShownIffFrom(all: seq<FeedItem>, k: nat, i: nat, m: nat)
    requires Sorted(all) && 0 < k && i <= m < |all|
    ensures Shown(all, k, i, m) <==> !Tied(all, k, i, m)
    decreases |all| - i
  {
    var j, next := PageEnd(all, k, i), NextStart(all, k, i);
    ShownUnfold(all, k, i, m);
    if m < next { NothingBefore(all, k, next, m); }
    if j <= m {
      SkippedAreTies(all, j, all[j - 1].sequence, m);
      assert Leq(all[j - 1], all[m]);
    }
    if next <= m { ShownIffFrom(all, k, next, m); }
  }

  /** A walk through all pages by the last shown sequence shows exactly the items that do not tie
      with the last item of an earlier page beyond that page. */
  lemma WalkShowsIff(feed: seq<FeedItem>, accounts: seq<string>, before: Option<nat>, k: nat, m: nat)
    requires 0 < k && m < |FullTimeline(feed, accounts, before)|
    ensures var all := FullTimeline(feed, accounts, before); Shown(all, k, 0, m) <==> !Tied(all, k, 0, m)
  {
    SortIsStableSort(Flatten(VisibleLists(feed, accounts, before)));
    ShownIffFrom(FullTimeline(feed, accounts, before), k, 0, m);
  }

}
