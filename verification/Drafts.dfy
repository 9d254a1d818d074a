/** Message drafts: a per-user in-memory cache over rows on disk. */
module Drafts {
  import opened Common

  const MAX_DRAFT_LEN := 4096
  const MAX_DRAFTS_PER_USER := 1024

  datatype Draft = Draft(conversation: string, content: string, replyTo: Option<string>, updatedAt: int)

  datatype DraftRow = DraftRow(content: string, replyTo: Option<string>, updatedAt: int)

  /** `drafts`, keyed by owner and conversation. */
  type Disk = map<(string, string), DraftRow>

  type Cache = map<string, map<string, Draft>>

  datatype Error = Invalid | LimitReached | StorageFailed

  function Codes(s: string): seq<int> {
    seq(|s|, i requires 0 <= i < |s| => s[i] as int)
  }

  /** `Draft::validate`. */
  predicate IsValid(d: Draft) {
    && IsValidId(Codes(d.conversation)) && |d.content| <= MAX_DRAFT_LEN
    && (d.replyTo.Some? ==> IsValidId(Codes(d.replyTo.value)))
  }

  function FromRow(conversation: string, row: DraftRow): Draft {
    Draft(conversation, row.content, row.replyTo, row.updatedAt)
  }

  /** What a reader sees of a draft. The cached copy carries the client's time stamp, the row the
      time of the write, so the time is not part of it. */
  function View(d: Draft): (string, string, Option<string>) { (d.conversation, d.content, d.replyTo) }

  // ----- The service without a cache -----

  function DiskView(disk: Disk, user: string, conversation: string): Option<(string, string, Option<string>)> {
    if (user, conversation) in disk then Some(View(FromRow(conversation, disk[(user, conversation)]))) else None
  }

  function DiskDrafts(disk: Disk, user: string): set<(string, string, Option<string>)> {
    set key | key in disk && key.0 == user :: View(FromRow(key.1, disk[key]))
  }

  /** The conversations in which the user has a row. */
  function Conversations(disk: Disk, user: string): set<string> {
    set key | key in disk && key.0 == user :: key.1
  }

  datatype Call =
    | Save(user: string, draft: Draft)
    | Get(user: string, conversation: string)
    | Delete(user: string, conversation: string)
    | List(user: string)
    | ClearAll(user: string)
    | Restart

  /** One request: `fails` says whether its storage call fails, `now` is the storage clock. */
  datatype Request = Request(call: Call, fails: bool, now: int)

  datatype Answer =
    | Done
    | Refused(error: Error)
    | Found(view: Option<(string, string, Option<string>)>)
    | Listed(views: set<(string, string, Option<string>)>)

  function WithoutUser(disk: Disk, user: string): Disk {
    map key | key in disk && key.0 != user :: disk[key]
  }

  /** The rows after a request that the service accepts. */
  function DiskAfter(disk: Disk, r: Request): Disk {
    match r.call
    case Save(u, d) =>
      if d.content == "" then disk - {(u, d.conversation)}
      else disk[(u, d.conversation) := DraftRow(d.content, d.replyTo, r.now)]
    case Delete(u, c) => disk - {(u, c)}
    case ClearAll(u) => WithoutUser(disk, u)
    case _ => disk
  }

  /** The cap is checked against the cache. */
  predicate AtCap(cache: Cache, user: string, conversation: string) {
    user in cache && conversation !in cache[user] && |cache[user]| >= MAX_DRAFTS_PER_USER
  }

  /** One request served from the rows alone: refused without effect, or answered from the rows
      and carried out on them. A cache may spare a read from failing, and a full one may refuse a
      new conversation; it may change nothing else. */
  ghost predicate ServedFromDisk(s: Store, r: Request, answer: Answer, disk': Disk) {
    if answer.Refused? then
      && disk' == s.disk
      && match r.call
         case Save(u, d) =>
           && (answer.error == Invalid <==> !IsValid(d))
           && (answer.error == StorageFailed ==> r.fails)
           && (answer.error == LimitReached ==> d.content != "" && AtCap(s.cache, u, d.conversation)
                                                && |Conversations(s.disk, u)| >= MAX_DRAFTS_PER_USER)
         case Restart => false
         case _ => r.fails && answer.error == StorageFailed
    else
      && disk' == DiskAfter(s.disk, r)
      && match r.call
         case Get(u, c) => answer == Found(DiskView(s.disk, u, c))
         case List(u) => !r.fails && answer == Listed(DiskDrafts(s.disk, u))
         case Save(u, d) => !r.fails && IsValid(d) && answer == Done
                            && (d.content != "" ==> !AtCap(s.cache, u, d.conversation))
         case Restart => answer == Done
         case _ => !r.fails && answer == Done
  }

  // ----- The cached service, as a function -----

  datatype Store = Store(cache: Cache, disk: Disk)

  function CachedOf(cache: Cache, user: string): map<string, Draft> {
    if user in cache then cache[user] else map[]
  }

  function Remember(cache: Cache, user: string, d: Draft): Cache {
    cache[user := CachedOf(cache, user)[d.conversation := d]]
  }

  function Forget(cache: Cache, user: string, conversation: string): Cache {
    if user in cache then cache[user := cache[user] - {conversation}] else cache
  }

  function Loaded(disk: Disk, user: string): map<string, Draft> {
    map c | c in Conversations(disk, user) && (user, c) in disk :: FromRow(c, disk[(user, c)])
  }

  /** The cache after the request, whether accepted or not. */
  function CacheAfter(s: Store, r: Request): Cache {
    match r.call
    case Save(u, d) =>
      if !IsValid(d) then s.cache
      else if d.content == "" then Forget(s.cache, u, d.conversation)
      else if AtCap(s.cache, u, d.conversation) || r.fails then s.cache
      else Remember(s.cache, u, d)
    case Get(u, c) =>
      if c in CachedOf(s.cache, u) || r.fails || (u, c) !in s.disk then s.cache
      else Remember(s.cache, u, FromRow(c, s.disk[(u, c)]))
    case Delete(u, c) => Forget(s.cache, u, c)
    case List(u) => if r.fails then s.cache else s.cache[u := Loaded(s.disk, u)]
    case ClearAll(u) => s.cache - {u}
    case Restart => map[]
  }

  function AnswerTo(s: Store, r: Request): Answer {
    match r.call
    case Save(u, d) =>
      if !IsValid(d) then Refused(Invalid)
      else if d.content != "" && AtCap(s.cache, u, d.conversation) then Refused(LimitReached)
      else if r.fails then Refused(StorageFailed)
      else Done
    case Get(u, c) =>
      if c in CachedOf(s.cache, u) then Found(Some(View(s.cache[u][c])))
      else if r.fails then Refused(StorageFailed)
      else Found(DiskView(s.disk, u, c))
    case List(u) => if r.fails then Refused(StorageFailed) else Listed(DiskDrafts(s.disk, u))
    case Restart => Done
    case _ => if r.fails then Refused(StorageFailed) else Done
  }

  function After(s: Store, r: Request): Store {
    Store(CacheAfter(s, r), if AnswerTo(s, r).Refused? then s.disk else DiskAfter(s.disk, r))
  }

  predicate AgreesAt(s: Store, user: string, conversation: string) {
    user in s.cache && conversation in s.cache[user] ==>
      Some(View(s.cache[user][conversation])) == DiskView(s.disk, user, conversation)
  }

  /** Every cached draft is on disk with the same content and reply target. */
  ghost predicate Agrees(s: Store) {
    forall u, c :: AgreesAt(s, u, c)
  }

  lemma CachedAtMostDisk(s: Store, user: string)
    requires Agrees(s)
    ensures CachedOf(s.cache, user).Keys <= Conversations(s.disk, user)
    ensures |CachedOf(s.cache, user)| <= |Conversations(s.disk, user)|
  {
    var cached := CachedOf(s.cache, user);
    forall c | c in cached ensures c in Conversations(s.disk, user) {
      assert AgreesAt(s, user, c);
      assert (user, c) in s.disk && (user, c).1 == c;
    }
    SubsetSize(cached.Keys, Conversations(s.disk, user));
  }

  lemma KeepsAgreementAt(s: Store, r: Request, user: string, conversation: string)
    requires AgreesAt(s, user, conversation)
    ensures AgreesAt(After(s, r), user, conversation)
  {}

  lemma KeepsAgreement(s: Store, r: Request)
    requires Agrees(s)
    ensures Agrees(After(s, r))
  {
    forall u, c ensures AgreesAt(After(s, r), u, c) {
      assert AgreesAt(s, u, c);
      KeepsAgreementAt(s, r, u, c);
    }
  }

  lemma AnswersFromDisk(s: Store, r: Request)
    requires Agrees(s)
    ensures ServedFromDisk(s, r, AnswerTo(s, r), After(s, r).disk)
  {
    if r.call.Save? && AtCap(s.cache, r.call.user, r.call.draft.conversation) {
      CachedAtMostDisk(s, r.call.user);
    }
    assert r.call.Get? ==> AgreesAt(s, r.call.user, r.call.conversation);
  }

  predicate SameRow(disk: Disk, disk': Disk, key: (string, string)) {
    (key in disk' <==> key in disk) && (key in disk ==> disk'[key] == disk[key])
  }

  /** An accepted request writes its own rows and no others. */
  lemma RowsOutcome(s: Store, r: Request, user: string, conversation: string)
    requires !AnswerTo(s, r).Refused?
    ensures var key, disk' := (user, conversation), After(s, r).disk;
            match r.call
            case Save(u, d) =>
              if u == user && d.conversation == conversation
              then if d.content == "" then key !in disk'
                   else key in disk' && disk'[key] == DraftRow(d.content, d.replyTo, r.now)
              else SameRow(s.disk, disk', key)
            case Delete(u, c) => if u == user && c == conversation then key !in disk' else SameRow(s.disk, disk', key)
            case ClearAll(u) => if u == user then key !in disk' else SameRow(s.disk, disk', key)
            case _ => SameRow(s.disk, disk', key)
  {}

  /** What is cached afterwards: a saved or found draft is, a listing caches exactly the rows, a
      deletion uncaches even if storage fails, and other drafts stay. */
  lemma CacheOutcome(s: Store, r: Request, user: string, conversation: string)
    ensures var was, now := conversation in CachedOf(s.cache, user), conversation in CachedOf(After(s, r).cache, user);
            match r.call
            case Save(u, d) =>
              now == if u == user && d.conversation == conversation && IsValid(d)
                     then d.content != "" && (was || AnswerTo(s, r) == Done) else was
            case Get(u, c) => now == (was || (u == user && c == conversation && !r.fails && (u, c) in s.disk))
            case Delete(u, c) => now == (was && !(u == user && c == conversation))
            case List(u) => now == if u == user && !r.fails then (user, conversation) in s.disk else was
            case ClearAll(u) => now == (was && u != user)
            case Restart => !now
  {
    if r.call.List? && (r.call.user, conversation) in s.disk {
      assert (r.call.user, conversation).1 == conversation;
    }
  }

  // ----- Whole histories -----

  ghost predicate StepAt(history: seq<Request>, stores: seq<Store>, k: nat)
    requires k < |history| && |stores| == |history| + 1
  {
    stores[k + 1] == After(stores[k], history[k])
  }

  /** `stores[k]` is the service before request `k`; at first cache and rows agree. */
  ghost predicate IsHistory(history: seq<Request>, stores: seq<Store>) {
    && |stores| == |history| + 1 && Agrees(stores[0])
    && forall k :: 0 <= k < |history| ==> StepAt(history, stores, k)
  }

  lemma {:induction false} AgreesAlways(history: seq<Request>, stores: seq<Store>, n: nat)
    requires IsHistory(history, stores) && n <= |history|
    ensures Agrees(stores[n])
  {
    if n > 0 {
      AgreesAlways(history, stores, n - 1);
      assert StepAt(history, stores, n - 1);
      KeepsAgreement(stores[n - 1], history[n - 1]);
    }
  }

  /** The cache is transparent: over every history with any storage failures and restarts, every
      request is served from the rows. */
  lemma CacheIsTransparent(history: seq<Request>, stores: seq<Store>, k: nat)
    requires IsHistory(history, stores) && k < |history|
    ensures ServedFromDisk(stores[k], history[k], AnswerTo(stores[k], history[k]), stores[k + 1].disk)
  {
    AgreesAlways(history, stores, k);
    assert StepAt(history, stores, k);
    AnswersFromDisk(stores[k], history[k]);
  }

  /** The request writes to the row of `user` and `conversation` if it is accepted. */
  predicate Touches(call: Call, user: string, conversation: string) {
    match call
    case Save(u, d) => u == user && d.conversation == conversation
    case Delete(u, c) => u == user && c == conversation
    case ClearAll(u) => u == user
    case _ => false
  }

  predicate Untouched(s: Store, r: Request, user: string, conversation: string) {
    AnswerTo(s, r).Refused? || !Touches(r.call, user, conversation)
  }

  /** Rows that nothing touches stay as they are. */
  lemma {:induction false} RowKept(history: seq<Request>, stores: seq<Store>,
                                   k: nat, j: nat, user: string, conversation: string)
    requires IsHistory(history, stores) && k <= j <= |history|
    requires forall i :: k <= i < j ==> Untouched(stores[i], history[i], user, conversation)
    ensures DiskView(stores[j].disk, user, conversation) == DiskView(stores[k].disk, user, conversation)
    decreases j
  {
    if k < j {
      RowKept(history, stores, k, j - 1, user, conversation);
      assert StepAt(history, stores, j - 1);
    }
  }

  /** A saved draft is what a later read returns, across restarts and failures, until an accepted
      request writes to it. */
  lemma SavedDraftIsFound(history: seq<Request>, stores: seq<Store>, k: nat, j: nat, user: string, d: Draft)
    requires IsHistory(history, stores) && k < j < |history|
    requires history[k].call == Save(user, d) && d.content != "" && AnswerTo(stores[k], history[k]) == Done
    requires history[j].call == Get(user, d.conversation)
    requires forall i :: k < i < j ==> Untouched(stores[i], history[i], user, d.conversation)
    ensures var answer := AnswerTo(stores[j], history[j]);
            answer == Found(Some(View(d))) || (history[j].fails && answer == Refused(StorageFailed))
  {
    assert StepAt(history, stores, k);
    RowKept(history, stores, k + 1, j, user, d.conversation);
    CacheIsTransparent(history, stores, j);
  }

  /** The request asks for the row to go. */
  predicate Drops(call: Call, user: string, conversation: string) {
    match call
    case Save(u, d) => u == user && d.conversation == conversation && d.content == ""
    case Delete(u, c) => u == user && c == conversation
    case ClearAll(u) => u == user
    case _ => false
  }

  /** After an accepted deletion, clearing or empty save a later read finds nothing, across restarts
      and failures, until an accepted request writes the draft again. */
  lemma DroppedDraftIsGone(history: seq<Request>, stores: seq<Store>, k: nat, j: nat, user: string, conversation: string)
    requires IsHistory(history, stores) && k < j < |history|
    requires Drops(history[k].call, user, conversation) && !AnswerTo(stores[k], history[k]).Refused?
    requires history[j].call == Get(user, conversation)
    requires forall i :: k < i < j ==> Untouched(stores[i], history[i], user, conversation)
    ensures var answer := AnswerTo(stores[j], history[j]);
            answer == Found(None) || (history[j].fails && answer == Refused(StorageFailed))
  {
    assert StepAt(history, stores, k);
    assert (user, conversation) !in stores[k + 1].disk;
    RowKept(history, stores, k + 1, j, user, conversation);
    CacheIsTransparent(history, stores, j);
  }

  // ----- The cap on drafts -----

  function RowCount(s: Store, user: string): nat { |Conversations(s.disk, user)| }

  predicate WithinCap(s: Store, user: string) { RowCount(s, user) <= MAX_DRAFTS_PER_USER }

  predicate IsProperSave(r: Request, user: string) {
    r.call.Save? && r.call.user == user && IsValid(r.call.draft) && r.call.draft.content != ""
  }

  /** A proper save is refused for the cap if and only if its conversation is not cached and the
      cache holds 1024 drafts of the user. */
  lemma LimitReachedIff(s: Store, r: Request, user: string)
    requires IsProperSave(r, user)
    ensures AnswerTo(s, r) == Refused(LimitReached)
            <==> r.call.draft.conversation !in CachedOf(s.cache, user)
                 && |CachedOf(s.cache, user)| >= MAX_DRAFTS_PER_USER
  {}

  /** A save of a conversation without row, at the cap on disk and below it in the cache. */
  predicate Overflows(s: Store, r: Request, user: string) {
    && IsProperSave(r, user) && !r.fails && r.call.draft.conversation !in Conversations(s.disk, user)
    && RowCount(s, user) >= MAX_DRAFTS_PER_USER && |CachedOf(s.cache, user)| < MAX_DRAFTS_PER_USER
  }

  lemma ConversationsAfter(s: Store, r: Request, user: string)
    ensures var before, now := Conversations(s.disk, user), Conversations(After(s, r).disk, user);
            if IsProperSave(r, user) && AnswerTo(s, r) == Done
            then now == before + {r.call.draft.conversation} else now <= before
  {
    var before, now := Conversations(s.disk, user), Conversations(After(s, r).disk, user);
    forall c | c in now
      ensures c in before || (IsProperSave(r, user) && AnswerTo(s, r) == Done && c == r.call.draft.conversation)
    {
      assert (user, c) in After(s, r).disk;
      if (user, c) in s.disk { assert c == (user, c).1; }
    }
    if IsProperSave(r, user) && AnswerTo(s, r) == Done {
      forall c | c in before + {r.call.draft.conversation} ensures c in now {
        assert (user, c) in After(s, r).disk && c == (user, c).1;
      }
    }
  }

  /** A request takes a user past 1024 rows if and only if it overflows. */
  lemma PastCapIff(s: Store, r: Request, user: string)
    requires Agrees(s) && WithinCap(s, user)
    ensures !WithinCap(After(s, r), user) <==> Overflows(s, r, user)
  {
    ConversationsAfter(s, r, user);
    CachedAtMostDisk(s, user);
    var before, now := Conversations(s.disk, user), Conversations(After(s, r).disk, user);
    if IsProperSave(r, user) && AnswerTo(s, r) == Done {
      if r.call.draft.conversation in before { assert now == before; }
    } else {
      SubsetSize(now, before);
    }
  }

  /** Over every history, a user stays within 1024 rows if and only if no request overflows. */
  lemma {:induction false} WithinCapIff(history: seq<Request>, stores: seq<Store>, user: string, n: nat)
    requires IsHistory(history, stores) && n <= |history| && WithinCap(stores[0], user)
    ensures (forall i :: 0 <= i <= n ==> WithinCap(stores[i], user))
            <==> forall i :: 0 <= i < n ==> !Overflows(stores[i], history[i], user)
  {
    if n > 0 {
      WithinCapIff(history, stores, user, n - 1);
      assert StepAt(history, stores, n - 1);
      AgreesAlways(history, stores, n - 1);
      if WithinCap(stores[n - 1], user) {
        PastCapIff(stores[n - 1], history[n - 1], user);
      }
    }
  }

  /** The request may drop drafts from the cache and leave their rows. */
  predicate MayForget(r: Request, user: string) {
    || r.call.Restart?
    || (r.fails && ((r.call.Delete? && r.call.user == user) || (r.call.ClearAll? && r.call.user == user)
                    || (r.call.Save? && r.call.user == user && r.call.draft.content == "")))
  }

  ghost predicate AllCached(s: Store, user: string) {
    forall c :: (user, c) in s.disk ==> c in CachedOf(s.cache, user)
  }

  lemma StaysCached(s: Store, r: Request, user: string)
    requires AllCached(s, user) && !MayForget(r, user)
    ensures AllCached(After(s, r), user)
  {}

  lemma AllCachedNoOverflow(s: Store, r: Request, user: string)
    requires AllCached(s, user)
    ensures !Overflows(s, r, user)
  {
    assert Conversations(s.disk, user) <= CachedOf(s.cache, user).Keys;
    SubsetSize(Conversations(s.disk, user), CachedOf(s.cache, user).Keys);
  }

  /** Without restarts and failing deletions the cap holds for the rows. */
  lemma {:induction false} CapHoldsWithoutForgetting(history: seq<Request>, stores: seq<Store>, user: string, n: nat)
    requires IsHistory(history, stores) && n <= |history|
    requires AllCached(stores[0], user) && WithinCap(stores[0], user)
    requires forall i :: 0 <= i < n ==> !MayForget(history[i], user)
    ensures AllCached(stores[n], user) && WithinCap(stores[n], user)
  {
    if n > 0 {
      CapHoldsWithoutForgetting(history, stores, user, n - 1);
      assert StepAt(history, stores, n - 1);
      AgreesAlways(history, stores, n - 1);
      StaysCached(stores[n - 1], history[n - 1], user);
      AllCachedNoOverflow(stores[n - 1], history[n - 1], user);
      PastCapIff(stores[n - 1], history[n - 1], user);
    }
  }

  // ----- A history that exceeds the cap -----

  const EMPTY := Store(map[], map[])

  function StoreAfter(history: seq<Request>): Store {
    if history == [] then EMPTY else After(StoreAfter(history[..|history| - 1]), history[|history| - 1])
  }

  lemma StoreAfterSnoc(history: seq<Request>, r: Request)
    ensures StoreAfter(history + [r]) == After(StoreAfter(history), r)
  {
    assert (history + [r])[..|history|] == history;
  }

  /** Two-letter conversation ids. */
  function Name(i: nat): string
    requires i < 1056
  {
    [(65 + i % 32) as char, (65 + i / 32) as char]
  }

  lemma NamesDiffer(i: nat, j: nat)
    requires i < 1056 && j < 1056 && Name(i) == Name(j)
    ensures i == j
  {
    assert Name(i)[0] == Name(j)[0] && Name(i)[1] == Name(j)[1];
  }

  function SaveOf(user: string, i: nat): Request
    requires i < 1056
  {
    Request(Save(user, Draft(Name(i), "x", None, 0)), false, 0)
  }

  function Fill(user: string, n: nat): seq<Request>
    requires n <= MAX_DRAFTS_PER_USER
  {
    if n == 0 then [] else Fill(user, n - 1) + [SaveOf(user, n - 1)]
  }

  ghost predicate IsName(c: string, n: nat)
    requires n <= 1056
  {
    exists i :: 0 <= i < n && c == Name(i)
  }

  /** The user has rows for the first `n` names. */
  ghost predicate HasFirst(s: Store, user: string, n: nat)
    requires n <= 1056
  {
    Agrees(s) && RowCount(s, user) == n && forall c :: c in Conversations(s.disk, user) ==> IsName(c, n)
  }

  lemma NextName(names: set<string>, n: nat)
    requires n < 1056 && |names| == n && forall c :: c in names ==> IsName(c, n)
    ensures |names + {Name(n)}| == n + 1 && forall c :: c in names + {Name(n)} ==> IsName(c, n + 1)
  {
    if Name(n) in names {
      assert IsName(Name(n), n);
      var i :| 0 <= i < n && Name(n) == Name(i);
      NamesDiffer(n, i);
    }
    forall c | c in names + {Name(n)} ensures IsName(c, n + 1) {
      assert c == Name(n) || IsName(c, n);
    }
  }

  lemma BelowCapAccepted(s: Store, user: string, n: nat)
    requires n < 1056 && |CachedOf(s.cache, user)| < MAX_DRAFTS_PER_USER
    ensures IsProperSave(SaveOf(user, n), user) && AnswerTo(s, SaveOf(user, n)) == Done
  {}

  /** Saving the next one below the cached cap adds its row. */
  lemma AddsRow(s: Store, user: string, n: nat)
    requires n < 1056 && HasFirst(s, user, n) && |CachedOf(s.cache, user)| < MAX_DRAFTS_PER_USER
    ensures HasFirst(After(s, SaveOf(user, n)), user, n + 1)
  {
    var s' := After(s, SaveOf(user, n));
    assert Agrees(s') by { KeepsAgreement(s, SaveOf(user, n)); }
    assert Conversations(s'.disk, user) == Conversations(s.disk, user) + {Name(n)} by {
      BelowCapAccepted(s, user, n);
      ConversationsAfter(s, SaveOf(user, n), user);
    }
    NextName(Conversations(s.disk, user), n);
  }

  lemma FilledNext(history: seq<Request>, user: string, n: nat)
    requires n < MAX_DRAFTS_PER_USER && HasFirst(StoreAfter(history), user, n)
    ensures HasFirst(StoreAfter(history + [SaveOf(user, n)]), user, n + 1)
  {
    StoreAfterSnoc(history, SaveOf(user, n));
    CachedAtMostDisk(StoreAfter(history), user);
    AddsRow(StoreAfter(history), user, n);
  }

  lemma {:induction false} Filled(user: string, n: nat)
    requires n <= MAX_DRAFTS_PER_USER
    ensures HasFirst(StoreAfter(Fill(user, n)), user, n)
  {
    if n > 0 {
      Filled(user, n - 1);
      FilledNext(Fill(user, n - 1), user, n - 1);
    }
  }

  /** Fill the cap, restart, save once more: 1025 rows. */
  lemma CapExceeded(user: string)
    ensures var history := Fill(user, MAX_DRAFTS_PER_USER) + [Request(Restart, false, 0)]
                           + [SaveOf(user, MAX_DRAFTS_PER_USER)];
            RowCount(StoreAfter(history), user) == MAX_DRAFTS_PER_USER + 1
  {
    var full := Fill(user, MAX_DRAFTS_PER_USER);
    var restarted := full + [Request(Restart, false, 0)];
    Filled(user, MAX_DRAFTS_PER_USER);
    StoreAfterSnoc(full, Request(Restart, false, 0));
    StoreAfterSnoc(restarted, SaveOf(user, MAX_DRAFTS_PER_USER));
    KeepsAgreement(StoreAfter(full), Request(Restart, false, 0));
    AddsRow(StoreAfter(restarted), user, MAX_DRAFTS_PER_USER);
  }

  // ----- The service -----

  lemma ListedAll(disk: Disk, user: string, loaded: map<string, Draft>)
    requires forall c :: c in loaded <==> (user, c) in disk
    requires forall c :: c in loaded ==> loaded[c] == FromRow(c, disk[(user, c)])
    ensures loaded == Loaded(disk, user)
    ensures (set c | c in loaded :: View(loaded[c])) == DiskDrafts(disk, user)
  {
    forall c ensures c in loaded <==> c in Conversations(disk, user) {
      if (user, c) in disk { assert c == (user, c).1; }
    }
  }

  class DraftService {
    var drafts: Cache
    var disk: Disk

    ghost function Contents(): Store
      reads this
    {
      Store(drafts, disk)
    }

    ghost predicate Valid()
      reads this
    {
      Agrees(Contents())
    }

    constructor ()
      ensures Valid() && Contents() == EMPTY
    {
      drafts, disk := map[], map[];
    }

    /** `save`: validate, let an empty draft delete, check the cap, then disk before cache. */
    method Save(user: string, draft: Draft, fails: bool, now: int) returns (r: Result<(), Error>)
      requires Valid()
      modifies this
      ensures var req, answer := Request(Call.Save(user, draft), fails, now), if r.Ok? then Done else Refused(r.error);
              && Contents() == After(old(Contents()), req) && answer == AnswerTo(old(Contents()), req)
              && Valid() && ServedFromDisk(old(Contents()), req, answer, disk)
    {
      KeepsAgreement(Contents(), Request(Call.Save(user, draft), fails, now));
      AnswersFromDisk(Contents(), Request(Call.Save(user, draft), fails, now));
      if !IsValid(draft) { return Err(Invalid); }
      if draft.content == "" {
        var deleted := Delete(user, draft.conversation, fails, now);
        return if deleted.Ok? then Ok(()) else Err(deleted.error);
      }
      if user in drafts && draft.conversation !in drafts[user] && |drafts[user]| >= MAX_DRAFTS_PER_USER {
        return Err(LimitReached);
      }
      if fails { return Err(StorageFailed); }
      disk := disk[(user, draft.conversation) := DraftRow(draft.content, draft.replyTo, now)];
      var cached := if user in drafts then drafts[user] else map[];
      drafts := drafts[user := cached[draft.conversation := draft]];
      return Ok(());
    }

    /** `get`: cache first, then disk, remembering what was read. */
    method Get(user: string, conversation: string, fails: bool) returns (r: Result<Option<Draft>, Error>)
      requires Valid()
      modifies this
      ensures Valid() && Contents() == After(old(Contents()), Request(Call.Get(user, conversation), fails, 0))
      ensures r.Err? <==> fails && conversation !in CachedOf(old(drafts), user)
      ensures r.Err? ==> r.error == StorageFailed
      ensures r.Ok? && r.value.Some? ==> DiskView(disk, user, conversation) == Some(View(r.value.value))
      ensures r.Ok? && r.value.None? ==> DiskView(disk, user, conversation) == None
    {
      KeepsAgreement(Contents(), Request(Call.Get(user, conversation), fails, 0));
      assert AgreesAt(Contents(), user, conversation);
      if user in drafts && conversation in drafts[user] {
        return Ok(Some(drafts[user][conversation]));
      }
      if fails { return Err(StorageFailed); }
      if (user, conversation) !in disk { return Ok(None); }
      var draft := FromRow(conversation, disk[(user, conversation)]);
      var cached := if user in drafts then drafts[user] else map[];
      drafts := drafts[user := cached[conversation := draft]];
      return Ok(Some(draft));
    }

    /** `delete`: cache before disk, so a failing disk leaves the row to be read again. */
    method Delete(user: string, conversation: string, fails: bool, now: int) returns (r: Result<bool, Error>)
      requires Valid()
      modifies this
      ensures var req, answer := Request(Call.Delete(user, conversation), fails, now),
                                 if r.Ok? then Done else Refused(r.error);
              && Contents() == After(old(Contents()), req) && answer == AnswerTo(old(Contents()), req)
              && Valid() && ServedFromDisk(old(Contents()), req, answer, disk)
      ensures r.Ok? ==> r.value == ((user, conversation) in old(disk))
    {
      KeepsAgreement(Contents(), Request(Call.Delete(user, conversation), fails, now));
      AnswersFromDisk(Contents(), Request(Call.Delete(user, conversation), fails, now));
      assert AgreesAt(Contents(), user, conversation);
      var removed := false;
      if user in drafts {
        removed := conversation in drafts[user];
        drafts := drafts[user := drafts[user] - {conversation}];
      }
      if fails { return Err(StorageFailed); }
      removed := removed || (user, conversation) in disk;
      disk := disk - {(user, conversation)};
      return Ok(removed);
    }

    /** The loop of `list` over the user's rows. */
    method LoadRows(user: string) returns (loaded: map<string, Draft>)
      ensures loaded == Loaded(disk, user) && (set c | c in loaded :: View(loaded[c])) == DiskDrafts(disk, user)
    {
      var rows := set key | key in disk && key.0 == user;
      loaded := map[];
      while rows != {}
        invariant rows <= disk.Keys && forall key :: key in rows ==> key.0 == user
        invariant forall c :: c in loaded <==> (user, c) in disk && (user, c) !in rows
        invariant forall c :: c in loaded ==> loaded[c] == FromRow(c, disk[(user, c)])
        decreases rows
      {
        var key :| key in rows;
        loaded := loaded[key.1 := FromRow(key.1, disk[key])];
        rows := rows - {key};
      }
      ListedAll(disk, user, loaded);
    }

    /** `list`: refill the user's cache from disk and return it. */
    method List(user: string, fails: bool) returns (r: Result<set<(string, string, Option<string>)>, Error>)
      requires Valid()
      modifies this
      ensures Valid() && Contents() == After(old(Contents()), Request(Call.List(user), fails, 0))
      ensures r.Err? <==> fails
      ensures r.Err? ==> r.error == StorageFailed
      ensures r.Ok? ==> r.value == DiskDrafts(disk, user)
    {
      KeepsAgreement(Contents(), Request(Call.List(user), fails, 0));
      if fails { return Err(StorageFailed); }
      var loaded := LoadRows(user);
      drafts := drafts[user := loaded];
      return Ok(set c | c in loaded :: View(loaded[c]));
    }

    /** `clear_all`. */
    method ClearAll(user: string, fails: bool, now: int) returns (r: Result<(), Error>)
      requires Valid()
      modifies this
      ensures var req, answer := Request(Call.ClearAll(user), fails, now), if r.Ok? then Done else Refused(r.error);
              && Contents() == After(old(Contents()), req) && answer == AnswerTo(old(Contents()), req)
              && Valid() && ServedFromDisk(old(Contents()), req, answer, disk)
    {
      KeepsAgreement(Contents(), Request(Call.ClearAll(user), fails, now));
      AnswersFromDisk(Contents(), Request(Call.ClearAll(user), fails, now));
      drafts := drafts - {user};
      if fails { return Err(StorageFailed); }
      disk := WithoutUser(disk, user);
      return Ok(());
    }

    /** Any request, including a restart that empties the cache. */
    method Serve(req: Request) returns (answer: Answer)
      requires Valid()
      modifies this
      ensures Valid() && Contents() == After(old(Contents()), req)
      ensures answer == AnswerTo(old(Contents()), req) && ServedFromDisk(old(Contents()), req, answer, disk)
    {
      AnswersFromDisk(Contents(), req);
      match req.call {
        case Save(u, d) =>
          var r := Save(u, d, req.fails, req.now);
          answer := if r.Ok? then Done else Refused(r.error);
        case Get(u, c) =>
          assert AgreesAt(Contents(), u, c);
          var r := Get(u, c, req.fails);
          answer := if r.Err? then Refused(r.error)
                    else Found(if r.value.Some? then Some(View(r.value.value)) else None);
        case Delete(u, c) =>
          var r := Delete(u, c, req.fails, req.now);
          answer := if r.Ok? then Done else Refused(r.error);
        case List(u) =>
          var r := List(u, req.fails);
          answer := if r.Ok? then Listed(r.value) else Refused(r.error);
        case ClearAll(u) =>
          var r := ClearAll(u, req.fails, req.now);
          answer := if r.Ok? then Done else Refused(r.error);
        case Restart =>
          drafts := map[];
          answer := Done;
      }
    }

    /** A whole history, with any storage failures and restarts. */
    method Replay(history: seq<Request>) returns (answers: seq<Answer>, ghost stores: seq<Store>)
      requires Valid()
      modifies this
      ensures Valid() && IsHistory(history, stores)
      ensures stores[0] == old(Contents()) && stores[|history|] == Contents()
      ensures |answers| == |history| && forall k :: 0 <= k < |history| ==> answers[k] == AnswerTo(stores[k], history[k])
    {
      answers, stores := [], [Contents()];
      for i := 0 to |history|
        invariant Valid()
        invariant |answers| == i && |stores| == i + 1 && stores[0] == old(Contents()) && stores[i] == Contents()
        invariant forall k :: 0 <= k < i ==> stores[k + 1] == After(stores[k], history[k])
        invariant forall k :: 0 <= k < i ==> answers[k] == AnswerTo(stores[k], history[k])
      {
        var answer := Serve(history[i]);
        answers, stores := answers + [answer], stores + [Contents()];
      }
    }
  }

}
