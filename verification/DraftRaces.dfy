/** Draft requests whose disk and cache accesses interleave. A read takes the row first and puts it
    into the cache later; a save writes the row first; a deletion empties the cache first. */
module DraftRaces {
  import opened Common
  import D = Drafts

  /** A cached draft and the step at which its content was read from or written to the row. No
      step looks at that number. */
  datatype Entry = Entry(draft: D.Draft, origin: nat)

  /** What a caller has left to do after its first access: fill the cache with drafts it read or
      wrote at step `origin`, or delete rows. */
  datatype Rest =
    | Fill(user: string, whole: bool, drafts: map<string, D.Draft>, origin: nat)
    | Erase(user: string, conversation: string)
    | EraseAll(user: string)

  /** The cache is keyed by user and conversation, like the rows. */
  datatype State = State(cache: map<(string, string), Entry>, disk: D.Disk, rest: map<nat, Rest>)

  datatype Step =
    | GetRead(caller: nat, user: string, conversation: string)
    | SavePut(caller: nat, user: string, draft: D.Draft, now: int)
    | ListRead(caller: nat, user: string)
    | Evict(caller: nat, user: string, conversation: string)
    | EvictAll(caller: nat, user: string)
    | Finish(caller: nat)
    | StorageFails(caller: nat)
    | Restart

  const INITIAL := State(map[], map[], map[])

  function OthersOnly(cache: map<(string, string), Entry>, user: string): map<(string, string), Entry> {
    map key | key in cache && key.0 != user :: cache[key]
  }

  /** `list` replaces the user's cached drafts, the others add to them. */
  function Filled(cache: map<(string, string), Entry>, r: Rest): map<(string, string), Entry>
    requires r.Fill?
  {
    (if r.whole then OthersOnly(cache, r.user) else cache)
    + map c | c in r.drafts :: (r.user, c) := Entry(r.drafts[c], r.origin)
  }

  function Finished(s: State, r: Rest): State {
    match r
    case Fill(_, _, _, _) => s.(cache := Filled(s.cache, r))
    case Erase(u, c) => s.(disk := s.disk - {(u, c)})
    case EraseAll(u) => s.(disk := D.WithoutUser(s.disk, u))
  }

  /** Step number `n`. A step that is not enabled changes nothing. */
  function Next(s: State, n: nat, step: Step): State {
    match step
    case GetRead(i, u, c) =>
      // The cache missed earlier; somebody may have filled it since.
      if i in s.rest || (u, c) !in s.disk then s
      else s.(rest := s.rest[i := Fill(u, false, map[c := D.FromRow(c, s.disk[(u, c)])], n)])
    case SavePut(i, u, d, now) =>
      if i in s.rest then s
      else s.(disk := s.disk[(u, d.conversation) := D.DraftRow(d.content, d.replyTo, now)],
              rest := s.rest[i := Fill(u, false, map[d.conversation := d], n)])
    case ListRead(i, u) => if i in s.rest then s else s.(rest := s.rest[i := Fill(u, true, D.Loaded(s.disk, u), n)])
    case Evict(i, u, c) =>
      if i in s.rest then s else s.(cache := s.cache - {(u, c)}, rest := s.rest[i := Erase(u, c)])
    case EvictAll(i, u) =>
      if i in s.rest then s else s.(cache := OthersOnly(s.cache, u), rest := s.rest[i := EraseAll(u)])
    case Finish(i) => if i !in s.rest then s else Finished(s, s.rest[i]).(rest := s.rest - {i})
    case StorageFails(i) =>
      if i !in s.rest || s.rest[i].Fill? then s else s.(rest := s.rest - {i})
    case Restart => s.(cache := map[], rest := map[])
  }

  ghost predicate StepAt(run: seq<Step>, trace: seq<State>, k: nat)
    requires k < |run| && |trace| == |run| + 1
  {
    trace[k + 1] == Next(trace[k], k, run[k])
  }

  /** `trace[k]` is the state before step `k`. */
  ghost predicate IsTrace(run: seq<Step>, trace: seq<State>) {
    && |trace| == |run| + 1 && trace[0] == INITIAL
    && forall k :: 0 <= k < |run| ==> StepAt(run, trace, k)
  }

  // ----- A cached draft is some earlier row -----

  /** The draft is what the row said right after step `origin`. */
  ghost predicate WasRow(trace: seq<State>, n: nat, user: string, conversation: string, d: D.Draft, origin: nat)
    requires n < |trace|
  {
    origin < n && Some(D.View(d)) == D.DiskView(trace[origin + 1].disk, user, conversation)
  }

  ghost predicate CacheWasRow(trace: seq<State>, n: nat)
    requires n < |trace|
  {
    && (forall key :: key in trace[n].cache ==>
          WasRow(trace, n, key.0, key.1, trace[n].cache[key].draft, trace[n].cache[key].origin))
    && (forall i, c :: i in trace[n].rest && trace[n].rest[i].Fill? && c in trace[n].rest[i].drafts ==>
          WasRow(trace, n, trace[n].rest[i].user, c, trace[n].rest[i].drafts[c], trace[n].rest[i].origin))
  }

  lemma FilledKeys(cache: map<(string, string), Entry>, r: Rest, key: (string, string))
    requires r.Fill? && key in Filled(cache, r)
    ensures (key.0 == r.user && key.1 in r.drafts && Filled(cache, r)[key] == Entry(r.drafts[key.1], r.origin))
            || (key in cache && Filled(cache, r)[key] == cache[key])
  {}

  lemma CachedWasRowNext(run: seq<Step>, trace: seq<State>, n: nat, key: (string, string))
    requires |trace| == |run| + 1 && n < |run| && StepAt(run, trace, n) && CacheWasRow(trace, n)
    requires key in trace[n + 1].cache
    ensures WasRow(trace, n + 1, key.0, key.1, trace[n + 1].cache[key].draft, trace[n + 1].cache[key].origin)
  {
    var s, step := trace[n], run[n];
    if step.Finish? && step.caller in s.rest && s.rest[step.caller].Fill? {
      FilledKeys(s.cache, s.rest[step.caller], key);
    }
  }

  lemma LoadedIsRow(disk: D.Disk, user: string, conversation: string)
    ensures conversation in D.Loaded(disk, user) ==>
              Some(D.View(D.Loaded(disk, user)[conversation])) == D.DiskView(disk, user, conversation)
  {}

  /** What a request that begins takes along is the row it has just read or written. */
  lemma BeginsWithRow(s: State, n: nat, step: Step, i: nat, c: string)
    requires var s' := Next(s, n, step); i in s'.rest && s'.rest[i].Fill? && c in s'.rest[i].drafts
    ensures var s' := Next(s, n, step); var r := s'.rest[i];
            || (i in s.rest && r == s.rest[i])
            || (r.origin == n && Some(D.View(r.drafts[c])) == D.DiskView(s'.disk, r.user, c))
  {
    if step.ListRead? { LoadedIsRow(s.disk, step.user, c); }
  }

  lemma RestWasRowNext(run: seq<Step>, trace: seq<State>, n: nat, i: nat, c: string)
    requires |trace| == |run| + 1 && n < |run| && StepAt(run, trace, n) && CacheWasRow(trace, n)
    requires i in trace[n + 1].rest && trace[n + 1].rest[i].Fill? && c in trace[n + 1].rest[i].drafts
    ensures var r := trace[n + 1].rest[i]; WasRow(trace, n + 1, r.user, c, r.drafts[c], r.origin)
  {
    BeginsWithRow(trace[n], n, run[n], i, c);
  }

  lemma {:induction false} CacheWasRowAlways(run: seq<Step>, trace: seq<State>, n: nat)
    requires IsTrace(run, trace) && n <= |run|
    ensures CacheWasRow(trace, n)
  {
    if n > 0 {
      CacheWasRowAlways(run, trace, n - 1);
      assert StepAt(run, trace, n - 1);
      forall key | key in trace[n].cache
        ensures WasRow(trace, n, key.0, key.1, trace[n].cache[key].draft, trace[n].cache[key].origin)
      {
        CachedWasRowNext(run, trace, n - 1, key);
      }
      forall i, c | i in trace[n].rest && trace[n].rest[i].Fill? && c in trace[n].rest[i].drafts
        ensures WasRow(trace, n, trace[n].rest[i].user, c, trace[n].rest[i].drafts[c], trace[n].rest[i].origin)
      {
        RestWasRowNext(run, trace, n - 1, i, c);
      }
    }
  }

  ghost predicate AgreesAt(s: State, user: string, conversation: string) {
    (user, conversation) in s.cache ==>
      Some(D.View(s.cache[(user, conversation)].draft)) == D.DiskView(s.disk, user, conversation)
  }

  /** The step writes or deletes the row. */
  predicate WritesRow(s: State, step: Step, user: string, conversation: string) {
    || (step.SavePut? && step.caller !in s.rest && step.user == user && step.draft.conversation == conversation)
    || (step.Finish? && step.caller in s.rest
        && (s.rest[step.caller] == Erase(user, conversation) || s.rest[step.caller] == EraseAll(user)))
  }

  /** What the row says after such a step. */
  function Leaves(step: Step): Option<(string, string, Option<string>)> {
    if step.SavePut? then Some(D.View(step.draft)) else None
  }

  lemma RowStep(s: State, n: nat, step: Step, user: string, conversation: string)
    ensures D.DiskView(Next(s, n, step).disk, user, conversation)
            == if WritesRow(s, step, user, conversation) then Leaves(step) else D.DiskView(s.disk, user, conversation)
  {}

  /** Step `k` is the last before step `n`, and not before step `from`, that writes the row. */
  ghost predicate LastWrite(run: seq<Step>, trace: seq<State>, from: nat, n: nat, k: nat, user: string, conversation: string)
    requires |trace| == |run| + 1 && n <= |run|
  {
    && from <= k < n && WritesRow(trace[k], run[k], user, conversation)
    && forall j :: k < j < n ==> !WritesRow(trace[j], run[j], user, conversation)
  }

  /** The row says what its last write left, or what it said before if there was none. */
  lemma {:induction false} RowSince(run: seq<Step>, trace: seq<State>, from: nat, n: nat, user: string, conversation: string)
    requires IsTrace(run, trace) && from <= n <= |run|
    ensures D.DiskView(trace[n].disk, user, conversation) == D.DiskView(trace[from].disk, user, conversation)
            || exists k: nat :: LastWrite(run, trace, from, n, k, user, conversation)
    ensures forall k: nat :: LastWrite(run, trace, from, n, k, user, conversation) ==>
              D.DiskView(trace[n].disk, user, conversation) == Leaves(run[k])
    decreases n
  {
    if from < n {
      RowSince(run, trace, from, n - 1, user, conversation);
      assert StepAt(run, trace, n - 1);
      RowStep(trace[n - 1], n - 1, run[n - 1], user, conversation);
      if WritesRow(trace[n - 1], run[n - 1], user, conversation) {
        assert LastWrite(run, trace, from, n, n - 1, user, conversation);
      } else {
        forall k: nat ensures LastWrite(run, trace, from, n, k, user, conversation)
                              <==> LastWrite(run, trace, from, n - 1, k, user, conversation) {}
        if D.DiskView(trace[n].disk, user, conversation) != D.DiskView(trace[from].disk, user, conversation) {
          var k: nat :| LastWrite(run, trace, from, n - 1, k, user, conversation);
          assert LastWrite(run, trace, from, n, k, user, conversation);
        }
      }
    }
  }

  /** Over every interleaving, a cached draft is right if and only if no save or finished deletion of
      its row came after the draft was read or written, or the last one left the same content. */
  lemma CachedAgreesIff(run: seq<Step>, trace: seq<State>, n: nat, user: string, conversation: string)
    requires IsTrace(run, trace) && n <= |run| && (user, conversation) in trace[n].cache
    ensures var x := trace[n].cache[(user, conversation)];
            && x.origin < n
            && (AgreesAt(trace[n], user, conversation)
                <==> forall k: nat :: LastWrite(run, trace, x.origin + 1, n, k, user, conversation)
                                 ==> Leaves(run[k]) == Some(D.View(x.draft)))
  {
    CacheWasRowAlways(run, trace, n);
    var x := trace[n].cache[(user, conversation)];
    assert WasRow(trace, n, user, conversation, x.draft, x.origin);
    RowSince(run, trace, x.origin + 1, n, user, conversation);
  }

  // ----- Without overlap the cache is right at rest -----

  predicate Starts(step: Step, user: string) {
    (step.GetRead? || step.SavePut? || step.ListRead? || step.Evict? || step.EvictAll?) && step.user == user
  }

  ghost predicate Busy(s: State, user: string) {
    exists i :: i in s.rest && s.rest[i].user == user
  }

  /** Requests of this user begin only when no other of theirs is under way. */
  ghost predicate NonOverlapping(run: seq<Step>, trace: seq<State>, user: string)
    requires |trace| == |run| + 1
  {
    forall k :: 0 <= k < |run| && Starts(run[k], user) ==> !Busy(trace[k], user)
  }

  /** What is left to do still fits the rows and the cache. */
  predicate Fits(s: State, r: Rest, conversation: string) {
    match r
    case Fill(u, _, drafts, _) =>
      conversation in drafts ==> Some(D.View(drafts[conversation])) == D.DiskView(s.disk, u, conversation)
    case Erase(u, c) => c == conversation ==> (u, c) !in s.cache
    case EraseAll(u) => (u, conversation) !in s.cache
  }

  ghost predicate SoleRest(s: State, user: string) {
    forall i, j :: i in s.rest && j in s.rest && s.rest[i].user == user && s.rest[j].user == user ==> i == j
  }

  ghost predicate RestFits(s: State, user: string, conversation: string) {
    forall i :: i in s.rest && s.rest[i].user == user ==> Fits(s, s.rest[i], conversation)
  }

  ghost predicate AboutToFill(s: State, user: string, conversation: string) {
    exists i :: i in s.rest && s.rest[i].user == user && s.rest[i].Fill? && conversation in s.rest[i].drafts
  }

  /** One request of the user at most is under way, what it has left to do fits, and the cached
      draft is right or about to be replaced. */
  ghost predicate InvAt(s: State, user: string, conversation: string) {
    && SoleRest(s, user) && RestFits(s, user, conversation)
    && (AgreesAt(s, user, conversation) || AboutToFill(s, user, conversation))
  }

  /** A request that begins is the only one of its user. */
  lemma StartIsSole(s: State, n: nat, step: Step, user: string)
    requires Starts(step, user) && !Busy(s, user)
    ensures var s' := Next(s, n, step);
            forall i :: i in s'.rest && s'.rest[i].user == user ==> i == step.caller
  {}

  lemma StartFits(s: State, n: nat, step: Step, user: string, conversation: string)
    requires Starts(step, user) && step.caller !in s.rest && Next(s, n, step) != s
    ensures var s' := Next(s, n, step); step.caller in s'.rest && Fits(s', s'.rest[step.caller], conversation)
  {
    if step.ListRead? { LoadedIsRow(s.disk, user, conversation); }
  }

  lemma StartAgrees(s: State, n: nat, step: Step, user: string, conversation: string)
    requires Starts(step, user) && AgreesAt(s, user, conversation)
    ensures AgreesAt(Next(s, n, step), user, conversation) || AboutToFill(Next(s, n, step), user, conversation)
  {
    var s' := Next(s, n, step);
    if step.SavePut? && step.caller !in s.rest && step.draft.conversation == conversation {
      assert s'.rest[step.caller].user == user && conversation in s'.rest[step.caller].drafts;
    }
  }

  lemma StartKeepsInv(s: State, n: nat, step: Step, user: string, conversation: string)
    requires InvAt(s, user, conversation) && Starts(step, user) && !Busy(s, user)
    ensures InvAt(Next(s, n, step), user, conversation)
  {
    var s' := Next(s, n, step);
    StartIsSole(s, n, step, user);
    StartAgrees(s, n, step, user, conversation);
    if s' != s { StartFits(s, n, step, user, conversation); }
  }

  predicate SameForKey(s: State, s': State, key: (string, string)) {
    && (key in s'.cache <==> key in s.cache) && (key in s.cache ==> s'.cache[key] == s.cache[key])
    && (key in s'.disk <==> key in s.disk) && (key in s.disk ==> s'.disk[key] == s.disk[key])
  }

  ghost predicate SameRest(s: State, s': State, user: string) {
    && (forall i :: i in s'.rest && s'.rest[i].user == user ==> i in s.rest && s.rest[i] == s'.rest[i])
    && (forall i :: i in s.rest && s.rest[i].user == user ==> i in s'.rest && s'.rest[i] == s.rest[i])
  }

  lemma FrameKeepsInv(s: State, s': State, user: string, conversation: string)
    requires InvAt(s, user, conversation) && SameForKey(s, s', (user, conversation)) && SameRest(s, s', user)
    ensures InvAt(s', user, conversation)
  {}

  lemma OthersLeaveAlone(s: State, n: nat, step: Step, user: string, conversation: string)
    requires !Starts(step, user) && !step.Restart?
    requires (step.Finish? || step.StorageFails?) && step.caller in s.rest ==> s.rest[step.caller].user != user
    ensures SameForKey(s, Next(s, n, step), (user, conversation)) && SameRest(s, Next(s, n, step), user)
  {}

  lemma FinishKeepsInv(s: State, n: nat, caller: nat, user: string, conversation: string)
    requires InvAt(s, user, conversation) && caller in s.rest && s.rest[caller].user == user
    ensures InvAt(Next(s, n, Finish(caller)), user, conversation)
  {
    var s', r := Next(s, n, Finish(caller)), s.rest[caller];
    assert forall i :: i in s'.rest ==> s'.rest[i].user != user;
    assert Fits(s, r, conversation);
    if r.Fill? && (user, conversation) in s'.cache { FilledKeys(s.cache, r, (user, conversation)); }
  }

  lemma FailKeepsInv(s: State, n: nat, caller: nat, user: string, conversation: string)
    requires InvAt(s, user, conversation) && caller in s.rest && s.rest[caller].user == user
    ensures InvAt(Next(s, n, StorageFails(caller)), user, conversation)
  {
    var s' := Next(s, n, StorageFails(caller));
    if !s.rest[caller].Fill? { assert forall i :: i in s'.rest ==> s'.rest[i].user != user; }
  }

  lemma KeepsInv(s: State, n: nat, step: Step, user: string, conversation: string)
    requires InvAt(s, user, conversation) && (Starts(step, user) ==> !Busy(s, user))
    ensures InvAt(Next(s, n, step), user, conversation)
  {
    if Starts(step, user) {
      StartKeepsInv(s, n, step, user, conversation);
    } else if step.Finish? && step.caller in s.rest && s.rest[step.caller].user == user {
      FinishKeepsInv(s, n, step.caller, user, conversation);
    } else if step.StorageFails? && step.caller in s.rest && s.rest[step.caller].user == user {
      FailKeepsInv(s, n, step.caller, user, conversation);
    } else if !step.Restart? {
      OthersLeaveAlone(s, n, step, user, conversation);
      FrameKeepsInv(s, Next(s, n, step), user, conversation);
    }
  }

  lemma InvNext(run: seq<Step>, trace: seq<State>, n: nat, user: string, conversation: string)
    requires |trace| == |run| + 1 && n < |run| && StepAt(run, trace, n)
    requires NonOverlapping(run, trace, user) && InvAt(trace[n], user, conversation)
    ensures InvAt(trace[n + 1], user, conversation)
  {
    KeepsInv(trace[n], n, run[n], user, conversation);
  }

  lemma InvAtFirst(user: string, conversation: string)
    ensures InvAt(INITIAL, user, conversation)
  {}

  lemma {:induction false} InvAlways(run: seq<Step>, trace: seq<State>, n: nat, user: string, conversation: string)
    requires IsTrace(run, trace) && n <= |run| && NonOverlapping(run, trace, user)
    ensures InvAt(trace[n], user, conversation)
  {
    if n == 0 {
      InvAtFirst(user, conversation);
    } else {
      InvAlways(run, trace, n - 1, user, conversation);
      assert StepAt(run, trace, n - 1);
      InvNext(run, trace, n - 1, user, conversation);
    }
  }

  /** However other users' requests interleave, a user whose own requests do not overlap finds the
      cache right whenever none of them is under way, whatever fails or restarts. */
  lemma RightAtRest(run: seq<Step>, trace: seq<State>, n: nat, user: string, conversation: string)
    requires IsTrace(run, trace) && n <= |run| && NonOverlapping(run, trace, user) && !Busy(trace[n], user)
    ensures AgreesAt(trace[n], user, conversation)
  {
    InvAlways(run, trace, n, user, conversation);
  }

  // ----- With overlap a deleted draft can stay cached -----

  function StateAfter(run: seq<Step>): State {
    if run == [] then INITIAL else Next(StateAfter(run[..|run| - 1]), |run| - 1, run[|run| - 1])
  }

  lemma Snoc(run: seq<Step>, step: Step)
    ensures StateAfter(run + [step]) == Next(StateAfter(run), |run|, step)
  {
    assert (run + [step])[..|run|] == run;
  }

  /** After a save and a restart the draft is on disk and not cached. */
  lemma RowOnly(user: string, d: D.Draft) returns (run: seq<Step>)
    ensures StateAfter(run)
            == State(map[], map[(user, d.conversation) := D.DraftRow(d.content, d.replyTo, 0)], map[])
  {
    Snoc([], SavePut(0, user, d, 0));
    Snoc([SavePut(0, user, d, 0)], Restart);
    run := [SavePut(0, user, d, 0)] + [Restart];
  }

  /** A deletion between the read and the caching of a row: at rest the row is gone and the draft
      is still served from the cache. */
  lemma DeletedDraftStaysCached(user: string, d: D.Draft) returns (run: seq<Step>)
    ensures var s := StateAfter(run);
            && s.rest == map[] && (user, d.conversation) !in s.disk
            && (user, d.conversation) in s.cache && D.View(s.cache[(user, d.conversation)].draft) == D.View(d)
  {
    var c := d.conversation;
    run := RowOnly(user, d);
    Snoc(run, GetRead(1, user, c));
    run := run + [GetRead(1, user, c)];
    var read := StateAfter(run).rest[1];
    Snoc(run, Evict(2, user, c));
    run := run + [Evict(2, user, c)];
    assert StateAfter(run).rest == map[1 := read, 2 := Erase(user, c)];
    Snoc(run, Finish(2));
    run := run + [Finish(2)];
    assert StateAfter(run).rest == map[1 := read] && StateAfter(run).disk == map[];
    Snoc(run, Finish(1));
    run := run + [Finish(1)];
    assert (user, c) in StateAfter(run).cache;
  }

}
