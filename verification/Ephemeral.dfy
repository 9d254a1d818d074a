/** Disappearing messages: reading a message schedules its deletion, turning the timer off
    cancels, and a periodic pass deletes what is due.

    The pass works on a copy of the queue and writes the rest back at the end. */
module Ephemeral {
  import opened Common

  datatype Timer = Off | FiveSeconds | ThirtySeconds | OneMinute | FiveMinutes | OneHour | TwentyFourHours

  function Seconds(t: Timer): nat {
    match t
    case Off => 0
    case FiveSeconds => 5
    case ThirtySeconds => 30
    case OneMinute => 60
    case FiveMinutes => 300
    case OneHour => 3600
    case TwentyFourHours => 86400
  }

  datatype Pending = Pending(message: string, conversation: string, owner: string, deleteAt: int)

  /** `Vec::retain`. */
  function Retain<T>(q: seq<T>, keep: T -> bool): seq<T> {
    if q == [] then []
    else Retain(q[..|q| - 1], keep) + if keep(q[|q| - 1]) then [q[|q| - 1]] else []
  }

  function NotDue(q: seq<Pending>, now: int): seq<Pending> { Retain(q, (p: Pending) => now < p.deleteAt) }

  function Uncancelled(q: seq<Pending>, owner: string, conversation: string): seq<Pending> {
    Retain(q, (p: Pending) => !(p.conversation == conversation && p.owner == owner))
  }

  function Undeleted(q: seq<Pending>, owner: string, message: string): seq<Pending> {
    Retain(q, (p: Pending) => !(p.message == message && p.owner == owner))
  }

  lemma {:induction false} RetainConcat<T>(a: seq<T>, b: seq<T>, keep: T -> bool)
    ensures Retain(a + b, keep) == Retain(a, keep) + Retain(b, keep)
    decreases |b|
  {
    if b == [] {
      assert a + b == a;
    } else {
      var n := |b| - 1;
      RetainConcat(a, b[..n], keep);
      assert (a + b)[..|a + b| - 1] == a + b[..n];
    }
  }

  // ===== Atomic passes: when is a message deleted? =====

  datatype Action =
    | SetTimer(owner: string, conversation: string, timer: Timer)
    | MarkRead(owner: string, message: string, conversation: string)
    | Delete(owner: string, message: string)
    | Pass

  datatype Event = Event(now: int, action: Action)

  type Settings = map<(string, string), Timer>

  function SettingsAt(run: seq<Event>, n: nat): Settings
    requires n <= |run|
  {
    if n == 0 then map[] else
    var before, a := SettingsAt(run, n - 1), run[n - 1].action;
    if a.SetTimer? then before[(a.owner, a.conversation) := a.timer] else before
  }

  predicate SetsTimer(a: Action, owner: string, conversation: string) {
    a.SetTimer? && a.owner == owner && a.conversation == conversation
  }

  /** The timer of a conversation is the one its owner set last. */
  lemma {:induction false} TimerSetLast(run: seq<Event>, n: nat, owner: string, conversation: string, timer: Timer)
    requires n <= |run|
    ensures (owner, conversation) in SettingsAt(run, n) && SettingsAt(run, n)[(owner, conversation)] == timer
            <==> exists i :: 0 <= i < n && run[i].action == SetTimer(owner, conversation, timer)
                             && forall k :: i < k < n ==> !SetsTimer(run[k].action, owner, conversation)
  {
    if n > 0 { TimerSetLast(run, n - 1, owner, conversation, timer); }
  }

  /** The deletion event `i` schedules: a read while the timer is on. */
  function Scheduled(run: seq<Event>, i: nat): Option<Pending>
    requires i < |run|
  {
    var a, settings := run[i].action, SettingsAt(run, i);
    if a.MarkRead? && (a.owner, a.conversation) in settings && settings[(a.owner, a.conversation)] != Off
    then Some(Pending(a.message, a.conversation, a.owner,
                      run[i].now + Seconds(settings[(a.owner, a.conversation)])))
    else None
  }

  function ScheduledList(run: seq<Event>, i: nat): seq<Pending>
    requires i < |run|
  {
    if Scheduled(run, i).Some? then [Scheduled(run, i).value] else []
  }

  /** Event `e` takes `p` off the queue: its timer is turned off, its message is deleted by hand, or
      it is due at a pass. */
  predicate Removes(e: Event, p: Pending) {
    match e.action
    case SetTimer(owner, conversation, timer) =>
      timer == Off && p.conversation == conversation && p.owner == owner
    case MarkRead(_, _, _) => false
    case Delete(owner, message) => p.message == message && p.owner == owner
    case Pass => p.deleteAt <= e.now
  }

  function NextQueue(q: seq<Pending>, e: Event, scheduled: seq<Pending>): seq<Pending> {
    match e.action
    case SetTimer(owner, conversation, timer) => if timer == Off then Uncancelled(q, owner, conversation) else q
    case MarkRead(_, _, _) => q + scheduled
    case Delete(owner, message) => Undeleted(q, owner, message)
    case Pass => NotDue(q, e.now)
  }

  /** `pending_deletions` after the first `n` events. */
  function QueueAt(run: seq<Event>, n: nat): seq<Pending>
    requires n <= |run|
  {
    if n == 0 then [] else NextQueue(QueueAt(run, n - 1), run[n - 1], ScheduledList(run, n - 1))
  }

  /** The deletion scheduled by event `i` has survived every event before `n`. */
  ghost predicate Survives(run: seq<Event>, i: nat, n: nat)
    requires i < n <= |run|
  {
    Scheduled(run, i).Some? && forall k :: i < k < n ==> !Removes(run[k], Scheduled(run, i).value)
  }

  /** The surviving deletions scheduled by the first `m` events, oldest first. */
  ghost function Survivors(run: seq<Event>, m: nat, n: nat): seq<Pending>
    requires m <= n <= |run|
  {
    if m == 0 then []
    else Survivors(run, m - 1, n) + if Survives(run, m - 1, n) then [Scheduled(run, m - 1).value] else []
  }

  lemma SurvivesNext(run: seq<Event>, i: nat, n: nat)
    requires i < n < |run|
    ensures Survives(run, i, n + 1)
            <==> Survives(run, i, n) && !Removes(run[n], Scheduled(run, i).value)
  {}

  /** One more event filters the survivors by what it removes. */
  lemma {:induction false} SurvivorsNext(run: seq<Event>, m: nat, n: nat)
    requires m <= n < |run|
    ensures Survivors(run, m, n + 1) == Retain(Survivors(run, m, n), (p: Pending) => !Removes(run[n], p))
  {
    if m > 0 {
      SurvivorsNext(run, m - 1, n);
      SurvivesNext(run, m - 1, n);
      var last := if Survives(run, m - 1, n) then [Scheduled(run, m - 1).value] else [];
      RetainConcat(Survivors(run, m - 1, n), last, (p: Pending) => !Removes(run[n], p));
      assert last != [] ==> last[..0] == [];
    }
  }

  lemma {:induction false} RetainSame<T>(q: seq<T>, f: T -> bool, g: T -> bool)
    requires forall p :: p in q ==> f(p) == g(p)
    ensures Retain(q, f) == Retain(q, g)
  {
    if q != [] {
      assert q[|q| - 1] in q;
      RetainSame(q[..|q| - 1], f, g);
    }
  }

  lemma {:induction false} RetainAll<T>(q: seq<T>, f: T -> bool)
    requires forall p :: p in q ==> f(p)
    ensures Retain(q, f) == q
  {
    if q != [] {
      assert q[|q| - 1] in q;
      RetainAll(q[..|q| - 1], f);
      assert q == q[..|q| - 1] + [q[|q| - 1]];
    }
  }

  /** Whatever the event, the queue afterwards is the queue before without what it removes, then
      what it schedules. */
  lemma QueueStep(run: seq<Event>, n: nat)
    requires n < |run|
    ensures QueueAt(run, n + 1) == Retain(QueueAt(run, n), (p: Pending) => !Removes(run[n], p)) + ScheduledList(run, n)
  {
    var q, e := QueueAt(run, n), run[n];
    match e.action
    case SetTimer(owner, conversation, timer) =>
      if timer == Off {
        RetainSame(q, (p: Pending) => !Removes(e, p), (p: Pending) => !(p.conversation == conversation && p.owner == owner));
      } else {
        RetainAll(q, (p: Pending) => !Removes(e, p));
      }
    case MarkRead(_, _, _) => RetainAll(q, (p: Pending) => !Removes(e, p));
    case Delete(owner, message) =>
      RetainSame(q, (p: Pending) => !Removes(e, p), (p: Pending) => !(p.message == message && p.owner == owner));
    case Pass => RetainSame(q, (p: Pending) => !Removes(e, p), (p: Pending) => e.now < p.deleteAt);
  }

  /** In every reachable state the queue is exactly the scheduled deletions that are neither
      cancelled nor passed since, in the order of the reads. */
  lemma {:induction false} QueueIsSurvivors(run: seq<Event>, n: nat)
    requires n <= |run|
    ensures QueueAt(run, n) == Survivors(run, n, n)
  {
    if n > 0 {
      QueueIsSurvivors(run, n - 1);
      QueueStep(run, n - 1);
      SurvivorsNext(run, n - 1, n - 1);
    }
  }

  lemma {:induction false} SurvivorsMembers(run: seq<Event>, m: nat, n: nat, p: Pending)
    requires m <= n <= |run|
    ensures p in Survivors(run, m, n)
            <==> exists i :: 0 <= i < m && Survives(run, i, n) && Scheduled(run, i).value == p
  {
    if m > 0 {
      SurvivorsMembers(run, m - 1, n, p);
    }
  }

  /** The pass at event `j` deletes the message for its owner. */
  ghost predicate DeletesAt(run: seq<Event>, j: nat, owner: string, message: string)
    requires j < |run|
  {
    run[j].action.Pass? && exists p :: p in QueueAt(run, j) && p.owner == owner && p.message == message
                                       && p.deleteAt <= run[j].now
  }

  /** The timer of the conversation that event `i` reads in, when it is on. */
  predicate TimerOn(run: seq<Event>, i: nat)
    requires i < |run| && run[i].action.MarkRead?
  {
    var key := (run[i].action.owner, run[i].action.conversation);
    key in SettingsAt(run, i) && SettingsAt(run, i)[key] != Off
  }

  /** The time the read at event `i` sets: its own time and the timer's seconds. */
  function DueTime(run: seq<Event>, i: nat): int
    requires i < |run| && run[i].action.MarkRead? && TimerOn(run, i)
  {
    run[i].now + Seconds(SettingsAt(run, i)[(run[i].action.owner, run[i].action.conversation)])
  }

  /** Event `i` is a read of the message, with the timer on, that comes due at `j`: between them the
      timer is not turned off, the message is not deleted by hand and no pass runs at or after the
      due time. */
  ghost predicate ComesDueAt(run: seq<Event>, i: nat, j: nat, owner: string, message: string)
    requires i < j < |run|
  {
    var read := run[i].action;
    && read.MarkRead? && read.owner == owner && read.message == message
    && TimerOn(run, i) && DueTime(run, i) <= run[j].now
    && (forall k :: i < k < j ==> run[k].action != SetTimer(owner, read.conversation, Off))
    && (forall k :: i < k < j ==> run[k].action != Delete(owner, message))
    && (forall k :: i < k < j && run[k].action.Pass? ==> run[k].now < DueTime(run, i))
  }

  /** A pass deletes a message if and only if it is the first pass at or after the due time of some
      read of it that was neither cancelled nor deleted by hand meanwhile; so never early, and never
      twice for one read. */
  lemma DeletedExactlyWhenDue(run: seq<Event>, j: nat, owner: string, message: string)
    requires j < |run| && run[j].action.Pass?
    ensures DeletesAt(run, j, owner, message)
            <==> exists i :: 0 <= i < j && ComesDueAt(run, i, j, owner, message)
  {
    QueueIsSurvivors(run, j);
    if DeletesAt(run, j, owner, message) {
      var p :| p in QueueAt(run, j) && p.owner == owner && p.message == message && p.deleteAt <= run[j].now;
      SurvivorsMembers(run, j, j, p);
      var i :| 0 <= i < j && Survives(run, i, j) && Scheduled(run, i).value == p;
      assert ComesDueAt(run, i, j, owner, message);
    }
    if i :| 0 <= i < j && ComesDueAt(run, i, j, owner, message) {
      var p := Scheduled(run, i).value;
      assert Survives(run, i, j);
      SurvivorsMembers(run, j, j, p);
      assert p in QueueAt(run, j);
    }
  }

  // ===== A pass step by step, with reads and cancellations in between =====

  datatype Step =
    | Push(entry: Pending)
    | Cancel(owner: string, conversation: string)
    | Drop(owner: string, message: string)
    | Process(now: int)

  /** `queue` is the shared queue; the worker has processed `done` entries of its `snapshot`. */
  datatype Working = Working(queue: seq<Pending>, snapshot: seq<Pending>, done: nat, still: seq<Pending>,
                             deleted: seq<(string, string)>)

  function Begin(queue: seq<Pending>): Working { Working(queue, queue, 0, [], []) }

  /** What reads, cancellations and deletions by hand do to the shared queue. */
  function Interfere(q: seq<Pending>, step: Step): seq<Pending> {
    match step
    case Push(p) => q + [p]
    case Cancel(owner, conversation) => Uncancelled(q, owner, conversation)
    case Drop(owner, message) => Undeleted(q, owner, message)
    case Process(_) => q
  }

  function Apply(w: Working, step: Step): Working {
    if !step.Process? then w.(queue := Interfere(w.queue, step)) else
    if w.done >= |w.snapshot| then w else
    var d := w.snapshot[w.done];
    if d.deleteAt <= step.now
    then w.(queue := Undeleted(w.queue, d.owner, d.message), done := w.done + 1,
            deleted := w.deleted + [(d.owner, d.message)])
    else w.(still := w.still + [d], done := w.done + 1)
  }

  function Exec(queue: seq<Pending>, steps: seq<Step>): Working {
    if steps == [] then Begin(queue) else Apply(Exec(queue, steps[..|steps| - 1]), steps[|steps| - 1])
  }

  /** The queue after the final write-back. */
  function Finish(w: Working): seq<Pending> { w.still }

  /** The clock readings of the processing steps. */
  function Times(steps: seq<Step>): seq<int> {
    if steps == [] then []
    else Times(steps[..|steps| - 1]) + if steps[|steps| - 1].Process? then [steps[|steps| - 1].now] else []
  }

  /** The first `n` entries that were not due when looked at. */
  function Kept(q: seq<Pending>, times: seq<int>, n: nat): seq<Pending>
    requires n <= |q| && n <= |times|
  {
    if n == 0 then []
    else Kept(q, times, n - 1) + if q[n - 1].deleteAt <= times[n - 1] then [] else [q[n - 1]]
  }

  function Expired(q: seq<Pending>, times: seq<int>, n: nat): seq<(string, string)>
    requires n <= |q| && n <= |times|
  {
    if n == 0 then []
    else Expired(q, times, n - 1)
         + if q[n - 1].deleteAt <= times[n - 1] then [(q[n - 1].owner, q[n - 1].message)] else []
  }

  lemma {:induction false} KeptExtends(q: seq<Pending>, times: seq<int>, more: seq<int>, n: nat)
    requires n <= |q| && n <= |times|
    ensures Kept(q, times + more, n) == Kept(q, times, n) && Expired(q, times + more, n) == Expired(q, times, n)
  {
    if n > 0 { KeptExtends(q, times, more, n - 1); }
  }

  /** Whatever happens to the shared queue meanwhile, the worker's verdict depends only on the
      snapshot and the clock. */
  lemma {:induction false} WorkerIgnoresInterference(queue: seq<Pending>, steps: seq<Step>)
    ensures var w, n := Exec(queue, steps), |Times(steps)|;
            && w.snapshot == queue && w.done == (if n < |queue| then n else |queue|)
            && w.still == Kept(queue, Times(steps), w.done)
            && w.deleted == Expired(queue, Times(steps), w.done)
  {
    if steps != [] {
      var before, step := steps[..|steps| - 1], steps[|steps| - 1];
      WorkerIgnoresInterference(queue, before);
      if step.Process? {
        KeptExtends(queue, Times(before), [step.now], Exec(queue, before).done);
      } else {
        assert Times(steps) == Times(before) + [] == Times(before);
      }
    }
  }

  /** At one instant, the pass keeps exactly the entries not yet due. */
  lemma {:induction false} KeptAtOnce(q: seq<Pending>, times: seq<int>, now: int, n: nat)
    requires n <= |q| && n <= |times| && forall i :: 0 <= i < n ==> times[i] == now
    ensures Kept(q, times, n) == NotDue(q[..n], now)
  {
    if n > 0 {
      KeptAtOnce(q, times, now, n - 1);
      assert q[..n][..n - 1] == q[..n - 1];
    }
  }

  // ----- Compared with a pass that happens at once, before the interference -----

  /** The interfering steps applied to a queue. */
  function AfterOps(q: seq<Pending>, steps: seq<Step>): seq<Pending> {
    if steps == [] then q else Interfere(AfterOps(q, steps[..|steps| - 1]), steps[|steps| - 1])
  }

  /** The step takes the entry off the shared queue. */
  predicate Takes(step: Step, p: Pending) {
    || (step.Cancel? && p.conversation == step.conversation && p.owner == step.owner)
    || (step.Drop? && p.message == step.message && p.owner == step.owner)
  }

  predicate TakenBy(steps: seq<Step>, p: Pending) {
    exists i :: 0 <= i < |steps| && Takes(steps[i], p)
  }

  /** The entries of `q` that the interference leaves alone, and those it takes away. */
  function Remaining(q: seq<Pending>, steps: seq<Step>): seq<Pending> {
    Retain(q, (p: Pending) => !TakenBy(steps, p))
  }

  function Taken(q: seq<Pending>, steps: seq<Step>): seq<Pending> {
    Retain(q, (p: Pending) => TakenBy(steps, p))
  }

  lemma TakenBySnoc(steps: seq<Step>, step: Step, p: Pending)
    ensures TakenBy(steps + [step], p) <==> TakenBy(steps, p) || Takes(step, p)
  {
    var all := steps + [step];
    if Takes(step, p) { assert Takes(all[|steps|], p); }
    if i :| 0 <= i < |steps| && Takes(steps[i], p) { assert Takes(all[i], p); }
  }

  lemma {:induction false} RetainTwice<T>(q: seq<T>, f: T -> bool, g: T -> bool, h: T -> bool)
    requires forall p :: p in q ==> h(p) == (f(p) && g(p))
    ensures Retain(Retain(q, f), g) == Retain(q, h)
  {
    if q != [] {
      var n := |q| - 1;
      assert q[n] in q;
      RetainTwice(q[..n], f, g, h);
      RetainConcat(Retain(q[..n], f), if f(q[n]) then [q[n]] else [], g);
      assert f(q[n]) ==> [q[n]][..0] == [];
    }
  }

  lemma InterfereSplits(q: seq<Pending>, step: Step)
    ensures Interfere(q, step) == Retain(q, (p: Pending) => !Takes(step, p)) + if step.Push? then [step.entry] else []
  {
    var keep := (p: Pending) => !Takes(step, p);
    match step
    case Push(_) => RetainAll(q, keep);
    case Cancel(owner, conversation) =>
      RetainSame(q, keep, (p: Pending) => !(p.conversation == conversation && p.owner == owner));
    case Drop(owner, message) =>
      RetainSame(q, keep, (p: Pending) => !(p.message == message && p.owner == owner));
    case Process(_) => RetainAll(q, keep);
  }

  /** Interference keeps the entries it does not take away and adds the entries it pushes and does
      not take away again. */
  lemma {:induction false} AfterOpsSplits(q: seq<Pending>, steps: seq<Step>)
    ensures AfterOps(q, steps) == Remaining(q, steps) + AfterOps([], steps)
  {
    if steps == [] {
      RetainAll(q, (p: Pending) => !TakenBy([], p));
    } else {
      var before, step := steps[..|steps| - 1], steps[|steps| - 1];
      AfterOpsSplits(q, before);
      assert steps == before + [step];
      forall p { TakenBySnoc(before, step, p); }
      var f, g := (p: Pending) => !TakenBy(before, p), (p: Pending) => !Takes(step, p);
      RetainTwice(q, f, g, (p: Pending) => !TakenBy(steps, p));
      RetainConcat(Retain(q, f), AfterOps([], before), g);
      InterfereSplits(AfterOps(q, before), step);
      InterfereSplits(AfterOps([], before), step);
    }
  }

  lemma {:induction false} TakenPartition(q: seq<Pending>, steps: seq<Step>)
    ensures multiset(q) == multiset(Remaining(q, steps)) + multiset(Taken(q, steps))
  {
    if q != [] {
      TakenPartition(q[..|q| - 1], steps);
      assert q == q[..|q| - 1] + [q[|q| - 1]];
    }
  }

  lemma CancelCommon<T>(a: multiset<T>, b: multiset<T>, c: multiset<T>)
    ensures a + b == a + c <==> b == c
  {
    assert (a + b) - a == b && (a + c) - a == c;
  }

  /** What a completed pass leaves and deletes: a function of the queue it found and of the clock. */
  lemma CompletedPass(queue: seq<Pending>, steps: seq<Step>)
    requires |Times(steps)| == |queue|
    ensures Finish(Exec(queue, steps)) == Kept(queue, Times(steps), |queue|)
    ensures Exec(queue, steps).deleted == Expired(queue, Times(steps), |queue|)
  {
    WorkerIgnoresInterference(queue, steps);
  }

  /** The queue `after` a stepwise pass against the queue `atOnce` of a pass that happened at once
      before the same interference: what was scheduled meanwhile is lost, what was cancelled or
      deleted by hand meanwhile comes back, nothing else differs, and the two agree if and only if
      these balance. */
  ghost predicate LosesAndRevives(after: seq<Pending>, atOnce: seq<Pending>, kept: seq<Pending>, steps: seq<Step>) {
    && multiset(after) == multiset(Remaining(kept, steps)) + multiset(Taken(kept, steps))
    && multiset(atOnce) == multiset(Remaining(kept, steps)) + multiset(AfterOps([], steps))
    && (multiset(after) == multiset(atOnce) <==> multiset(Taken(kept, steps)) == multiset(AfterOps([], steps)))
  }

  /** Any clock readings: the pass at once judges every entry at the time the worker looked at it. */
  lemma PassLosesAndRevives(queue: seq<Pending>, steps: seq<Step>)
    requires |Times(steps)| == |queue|
    ensures var kept := Kept(queue, Times(steps), |queue|);
            LosesAndRevives(Finish(Exec(queue, steps)), AfterOps(kept, steps), kept, steps)
  {
    var kept := Kept(queue, Times(steps), |queue|);
    CompletedPass(queue, steps);
    AfterOpsSplits(kept, steps);
    TakenPartition(kept, steps);
    CancelCommon(multiset(Remaining(kept, steps)), multiset(Taken(kept, steps)), multiset(AfterOps([], steps)));
  }

  /** One clock reading: the pass at once is the atomic pass of the runs above. */
  lemma PassAtOneInstant(queue: seq<Pending>, steps: seq<Step>, now: int)
    requires |Times(steps)| == |queue| && forall i :: 0 <= i < |queue| ==> Times(steps)[i] == now
    ensures LosesAndRevives(Finish(Exec(queue, steps)), AfterOps(NotDue(queue, now), steps), NotDue(queue, now), steps)
  {
    PassLosesAndRevives(queue, steps);
    KeptAtOnce(queue, Times(steps), now, |queue|);
    assert queue[..|queue|] == queue;
  }

  // ----- What the write-back itself does to the shared queue -----

  /** The steps as the shared queue sees them: looking at a due entry deletes its message. */
  function Seen(queue: seq<Pending>, steps: seq<Step>): seq<Step> {
    if steps == [] then [] else
    var before, step := steps[..|steps| - 1], steps[|steps| - 1];
    var w := Exec(queue, before);
    Seen(queue, before)
    + if step.Process? && w.done < |w.snapshot| && w.snapshot[w.done].deleteAt <= step.now
      then [Drop(w.snapshot[w.done].owner, w.snapshot[w.done].message)]
      else [step]
  }

  lemma {:induction false} QueueDuringPass(queue: seq<Pending>, steps: seq<Step>)
    ensures Exec(queue, steps).queue == AfterOps(queue, Seen(queue, steps))
  {
    if steps != [] {
      QueueDuringPass(queue, steps[..|steps| - 1]);
      var seen := Seen(queue, steps);
      assert seen[..|seen| - 1] == Seen(queue, steps[..|steps| - 1]);
    }
  }

  /** If all due entries are taken away, the others are what remains of those kept. */
  lemma {:induction false} RemainingAreKept(q: seq<Pending>, times: seq<int>, steps: seq<Step>, n: nat)
    requires n <= |q| && n <= |times|
    requires forall i :: 0 <= i < n && q[i].deleteAt <= times[i] ==> TakenBy(steps, q[i])
    ensures Remaining(q[..n], steps) == Remaining(Kept(q, times, n), steps)
  {
    if n > 0 {
      RemainingAreKept(q, times, steps, n - 1);
      assert q[..n][..n - 1] == q[..n - 1];
      var kept := Kept(q, times, n - 1);
      assert Kept(q, times, n) == if q[n - 1].deleteAt <= times[n - 1] then kept else kept + [q[n - 1]];
      RetainConcat(kept, [q[n - 1]], (p: Pending) => !TakenBy(steps, p));
      assert [q[n - 1]][..0] == [];
    }
  }

  /** Every entry found due was dropped when it was looked at. */
  lemma {:induction false} DueAreDropped(queue: seq<Pending>, steps: seq<Step>, i: nat)
    requires i < |queue| && i < |Times(steps)| && queue[i].deleteAt <= Times(steps)[i]
    ensures TakenBy(Seen(queue, steps), queue[i])
    decreases |steps|
  {
    var before, step := steps[..|steps| - 1], steps[|steps| - 1];
    var seen := Seen(queue, steps);
    var last := seen[|seen| - 1];
    assert seen == Seen(queue, before) + [last];
    TakenBySnoc(Seen(queue, before), last, queue[i]);
    if i < |Times(before)| {
      DueAreDropped(queue, before, i);
    } else {
      WorkerIgnoresInterference(queue, before);
      assert Takes(last, queue[i]);
    }
  }

  /** At the moment of the write-back, the shared queue loses exactly the entries pushed during the
      pass that it still holds, and gets back exactly the kept entries that something took away
      during the pass; it stays the same if and only if these balance. */
  lemma WriteBackLosesAndRevives(queue: seq<Pending>, steps: seq<Step>)
    requires |Times(steps)| == |queue|
    ensures var w, kept := Exec(queue, steps), Kept(queue, Times(steps), |queue|);
            LosesAndRevives(Finish(w), w.queue, kept, Seen(queue, steps))
  {
    var kept, seen := Kept(queue, Times(steps), |queue|), Seen(queue, steps);
    CompletedPass(queue, steps);
    QueueDuringPass(queue, steps);
    AfterOpsSplits(queue, seen);
    forall i | 0 <= i < |queue| && queue[i].deleteAt <= Times(steps)[i] ensures TakenBy(seen, queue[i]) {
      DueAreDropped(queue, steps, i);
    }
    RemainingAreKept(queue, Times(steps), seen, |queue|);
    assert queue[..|queue|] == queue;
    TakenPartition(kept, seen);
    CancelCommon(multiset(Remaining(kept, seen)), multiset(Taken(kept, seen)), multiset(AfterOps([], seen)));
  }

}
