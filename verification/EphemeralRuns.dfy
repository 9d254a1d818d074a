/** Whole runs of the disappearing-message service in which a pass takes time: it copies the queue,
    looks at one entry after the other and writes the rest back, while reads, cancellations and
    deletions by hand go on. A read looks the timer up first and pushes its entry later; turning a
    timer off stores the setting first and cancels later.

    Every queue entry carries the number of the event that pushed it. No step looks at that number;
    it tells equal entries apart in the theorems. */
module EphemeralRuns {
  import opened Common
  import E = Ephemeral

  datatype Action =
    | StoreTimer(caller: nat, owner: string, conversation: string, timer: E.Timer)
    | CancelAll(caller: nat)
    | Register(owner: string, message: string, conversation: string)
    | ReadTimer(caller: nat, owner: string, message: string, conversation: string)
    | Push(caller: nat)
    | Delete(owner: string, message: string)
    | Begin
    | Look
    | End

  datatype Event = Event(now: int, action: Action)

  datatype Entry = Entry(push: nat, data: E.Pending)

  /** What a caller does next: push an entry with the timer it found, or cancel. */
  datatype Intent =
    | Reading(owner: string, message: string, conversation: string, timer: E.Timer)
    | Cancelling(owner: string, conversation: string)

  /** A pass begun at event `begun` has looked at `done` entries of its `snapshot`. */
  datatype Worker = Worker(begun: nat, snapshot: seq<Entry>, done: nat, still: seq<Entry>)

  /** `tracked` are the keys of the in-memory message records, `deletions` the storage deletions
      requested so far; both are pairs of owner and message. */
  datatype State = State(settings: E.Settings, tracked: set<(string, string)>, queue: seq<Entry>,
                         worker: Option<Worker>, deletions: seq<(string, string)>, callers: map<nat, Intent>)

  const INITIAL := State(map[], {}, [], None, [], map[])

  predicate IsOn(settings: E.Settings, owner: string, conversation: string) {
    (owner, conversation) in settings && settings[(owner, conversation)] != E.Off
  }

  predicate IsPush(s: State, e: Event) {
    e.action.Push? && e.action.caller in s.callers && s.callers[e.action.caller].Reading?
  }

  predicate IsCancel(s: State, e: Event) {
    e.action.CancelAll? && e.action.caller in s.callers && s.callers[e.action.caller].Cancelling?
  }

  /** The entry that event `e`, in state `s`, pushes: due the timer's seconds after the push. */
  function Scheduled(s: State, e: Event): Option<E.Pending> {
    if !IsPush(s, e) then None else
    var r := s.callers[e.action.caller];
    Some(E.Pending(r.message, r.conversation, r.owner, e.now + E.Seconds(r.timer)))
  }

  function Pushed(s: State, n: nat, e: Event): seq<Entry> {
    if Scheduled(s, e).Some? then [Entry(n, Scheduled(s, e).value)] else []
  }

  /** The event takes the entry off the shared queue, outside a pass for good. */
  predicate Cancels(s: State, e: Event, p: E.Pending) {
    || (IsCancel(s, e) && s.callers[e.action.caller] == Cancelling(p.owner, p.conversation))
    || e.action == Delete(p.owner, p.message)
  }

  /** `delete_ephemeral_message`. */
  function Deleted(s: State, owner: string, message: string): State {
    s.(tracked := s.tracked - {(owner, message)},
       queue := E.Retain(s.queue, (e: Entry) => !(e.data.message == message && e.data.owner == owner)),
       deletions := s.deletions + [(owner, message)])
  }

  predicate CanLook(s: State) {
    s.worker.Some? && s.worker.value.done < |s.worker.value.snapshot|
  }

  /** Event number `n`. An action that is not enabled changes nothing. */
  function Next(s: State, n: nat, e: Event): State {
    match e.action
    case StoreTimer(c, owner, conversation, timer) =>
      if c in s.callers then s else
      s.(settings := s.settings[(owner, conversation) := timer],
         callers := if timer == E.Off then s.callers[c := Cancelling(owner, conversation)] else s.callers)
    case CancelAll(c) =>
      if !IsCancel(s, e) then s else
      var r := s.callers[c];
      s.(queue := E.Retain(s.queue, (x: Entry) => !(x.data.conversation == r.conversation && x.data.owner == r.owner)),
         callers := s.callers - {c})
    case Register(owner, message, conversation) =>
      if IsOn(s.settings, owner, conversation) then s.(tracked := s.tracked + {(owner, message)}) else s
    case ReadTimer(c, owner, message, conversation) =>
      if c in s.callers || !IsOn(s.settings, owner, conversation) then s else
      s.(callers := s.callers[c := Reading(owner, message, conversation, s.settings[(owner, conversation)])])
    case Push(c) =>
      if !IsPush(s, e) then s else s.(queue := s.queue + Pushed(s, n, e), callers := s.callers - {c})
    case Delete(owner, message) => Deleted(s, owner, message)
    case Begin => if s.worker.Some? then s else s.(worker := Some(Worker(n, s.queue, 0, [])))
    case Look =>
      if !CanLook(s) then s else
      var w := s.worker.value;
      var x := w.snapshot[w.done];
      if x.data.deleteAt <= e.now
      then Deleted(s.(worker := Some(w.(done := w.done + 1))), x.data.owner, x.data.message)
      else s.(worker := Some(w.(done := w.done + 1, still := w.still + [x])))
    case End =>
      if s.worker.Some? && !CanLook(s) then s.(queue := s.worker.value.still, worker := None) else s
  }

  /** `trace[k]` is the state before event `k`. */
  ghost predicate StepAt(run: seq<Event>, trace: seq<State>, k: nat)
    requires k < |run| && |trace| == |run| + 1
  {
    trace[k + 1] == Next(trace[k], k, run[k])
  }

  ghost predicate IsTrace(run: seq<Event>, trace: seq<State>) {
    && |trace| == |run| + 1 && trace[0] == INITIAL
    && forall k :: 0 <= k < |run| ==> StepAt(run, trace, k)
  }

  /** The state after a whole run. */
  function StateAfter(run: seq<Event>): State {
    if run == [] then INITIAL else Next(StateAfter(run[..|run| - 1]), |run| - 1, run[|run| - 1])
  }

  lemma StateAfterSnoc(run: seq<Event>, e: Event)
    ensures StateAfter(run + [e]) == Next(StateAfter(run), |run|, e)
  {
    assert (run + [e])[..|run|] == run;
  }

  /** Every run has a trace, which ends in that state. */
  lemma TraceOf(run: seq<Event>) returns (trace: seq<State>)
    ensures IsTrace(run, trace) && trace[|run|] == StateAfter(run)
  {
    trace := seq(|run| + 1, k requires 0 <= k <= |run| => StateAfter(run[..k]));
    forall k | 0 <= k < |run| ensures StepAt(run, trace, k) {
      assert run[..k + 1] == run[..k] + [run[k]];
      StateAfterSnoc(run[..k], run[k]);
    }
    assert run[..|run|] == run;
  }

  // ----- Which pushes are in the queue? -----

  /** Between a snapshot and its write-back. */
  predicate InPass(s: State) { s.worker.Some? }

  /** Event `e`, in state `s`, looks at the entry pushed by event `i`. */
  predicate Examines(s: State, e: Event, i: nat) {
    e.action.Look? && CanLook(s) && s.worker.value.snapshot[s.worker.value.done].push == i
  }

  /** Event `i` is a push outside passes; outside passes nothing cancelled its entry
      before event `m`, and whoever looked at it before event `n` found it not due. */
  ghost predicate Clean(run: seq<Event>, trace: seq<State>, i: nat, m: nat, n: nat)
    requires |trace| == |run| + 1 && m <= n <= |run|
  {
    && i < m && Scheduled(trace[i], run[i]).Some? && !InPass(trace[i])
    && var p := Scheduled(trace[i], run[i]).value;
    && (forall k :: i < k < m && Cancels(trace[k], run[k], p) ==> InPass(trace[k]))
    && (forall k :: i < k < n && Examines(trace[k], run[k], i) ==> run[k].now < p.deleteAt)
  }

  ghost predicate Holds(q: seq<Entry>, i: nat) {
    exists x :: x in q && x.push == i
  }

  /** Entries in the order of their pushes. */
  ghost predicate Ordered(q: seq<Entry>) {
    forall a, b :: 0 <= a < b < |q| ==> q[a].push < q[b].push
  }

  ghost predicate FromPush(run: seq<Event>, trace: seq<State>, n: nat, x: Entry)
    requires |trace| == |run| + 1 && n <= |run|
  {
    x.push < n && Scheduled(trace[x.push], run[x.push]) == Some(x.data)
  }

  /** Entries as they were pushed before event `n`. */
  ghost predicate Faithful(run: seq<Event>, trace: seq<State>, n: nat, q: seq<Entry>)
    requires |trace| == |run| + 1 && n <= |run|
  {
    Ordered(q) && forall x :: x in q ==> FromPush(run, trace, n, x)
  }

  /** Between passes the queue holds exactly the clean pushes. */
  ghost predicate QueueIsClean(run: seq<Event>, trace: seq<State>, n: nat)
    requires |trace| == |run| + 1 && n <= |run|
  {
    forall i: nat :: Holds(trace[n].queue, i) <==> Clean(run, trace, i, n, n)
  }

  lemma {:induction false} RetainOrdered(q: seq<Entry>, keep: Entry -> bool)
    requires Ordered(q)
    ensures Ordered(E.Retain(q, keep))
    ensures forall x :: x in E.Retain(q, keep) <==> x in q && keep(x)
  {
    if q != [] {
      var before, last := q[..|q| - 1], q[|q| - 1];
      RetainOrdered(before, keep);
      assert q == before + [last];
      assert forall x :: x in E.Retain(before, keep) ==> x.push < last.push;
    }
  }

  lemma CancelNext(s: State, n: nat, e: Event)
    requires IsCancel(s, e)
    ensures Next(s, n, e).queue == E.Retain(s.queue, (x: Entry) => !Cancels(s, e, x.data))
  {
    var r := s.callers[e.action.caller];
    E.RetainSame(s.queue, (x: Entry) => !Cancels(s, e, x.data),
                 (x: Entry) => !(x.data.conversation == r.conversation && x.data.owner == r.owner));
  }

  lemma DeleteNext(s: State, n: nat, e: Event)
    requires e.action.Delete?
    ensures Next(s, n, e).queue == E.Retain(s.queue, (x: Entry) => !Cancels(s, e, x.data))
  {
    E.RetainSame(s.queue, (x: Entry) => !Cancels(s, e, x.data),
                 (x: Entry) => !(x.data.message == e.action.message && x.data.owner == e.action.owner));
  }

  lemma OtherNext(s: State, n: nat, e: Event)
    requires !IsCancel(s, e) && !e.action.Delete?
    requires !(e.action.Look? && CanLook(s)) && !(e.action.End? && InPass(s))
    ensures Next(s, n, e).queue == s.queue + Pushed(s, n, e)
    ensures E.Retain(s.queue, (x: Entry) => !Cancels(s, e, x.data)) == s.queue
  {
    E.RetainAll(s.queue, (x: Entry) => !Cancels(s, e, x.data));
  }

  /** What events other than looks and write-backs do to the shared queue. */
  lemma QueueNext(s: State, n: nat, e: Event)
    requires !(e.action.Look? && CanLook(s)) && !(e.action.End? && InPass(s))
    ensures Next(s, n, e).queue == E.Retain(s.queue, (x: Entry) => !Cancels(s, e, x.data)) + Pushed(s, n, e)
  {
    if IsCancel(s, e) {
      CancelNext(s, n, e);
    } else if e.action.Delete? {
      DeleteNext(s, n, e);
    } else {
      OtherNext(s, n, e);
    }
  }

  /** Outside passes: event `n` leaves the clean push `i` alone, or is that push. */
  ghost predicate StaysOrJoins(run: seq<Event>, trace: seq<State>, i: nat, n: nat)
    requires |trace| == |run| + 1 && n < |run|
  {
    || (i == n && Scheduled(trace[n], run[n]).Some?)
    || (Clean(run, trace, i, n, n) && !Cancels(trace[n], run[n], Scheduled(trace[i], run[i]).value))
  }

  lemma CleanNext(run: seq<Event>, trace: seq<State>, i: nat, n: nat)
    requires |trace| == |run| + 1 && n < |run| && !InPass(trace[n])
    ensures Clean(run, trace, i, n + 1, n + 1) <==> StaysOrJoins(run, trace, i, n)
  {
    assert !Examines(trace[n], run[n], i);
  }

  lemma HoldsNext(run: seq<Event>, trace: seq<State>, i: nat, n: nat, q: seq<Entry>)
    requires |trace| == |run| + 1 && n < |run|
    requires Faithful(run, trace, n, q) && (Holds(q, i) <==> Clean(run, trace, i, n, n))
    ensures var q' := E.Retain(q, (x: Entry) => !Cancels(trace[n], run[n], x.data)) + Pushed(trace[n], n, run[n]);
            Holds(q', i) <==> StaysOrJoins(run, trace, i, n)
  {
    var keep := (x: Entry) => !Cancels(trace[n], run[n], x.data);
    RetainOrdered(q, keep);
    var r, more := E.Retain(q, keep), Pushed(trace[n], n, run[n]);
    if Holds(r + more, i) {
      var x: Entry :| x in r + more && x.push == i;
      if x in q {
        assert FromPush(run, trace, n, x) && Holds(q, i);
      }
    }
    if Clean(run, trace, i, n, n) && !Cancels(trace[n], run[n], Scheduled(trace[i], run[i]).value) {
      var x: Entry :| x in q && x.push == i;
      assert FromPush(run, trace, n, x);
      assert x in r + more;
    }
    if i == n && Scheduled(trace[n], run[n]).Some? {
      assert more[0] in r + more;
    }
  }

  lemma OutsideStep(run: seq<Event>, trace: seq<State>, n: nat)
    requires |trace| == |run| + 1 && n < |run| && StepAt(run, trace, n)
    requires !InPass(trace[n]) && !run[n].action.Begin?
    requires Faithful(run, trace, n, trace[n].queue) && QueueIsClean(run, trace, n)
    ensures QueueIsClean(run, trace, n + 1) && !InPass(trace[n + 1])
  {
    QueueNext(trace[n], n, run[n]);
    var q', m := trace[n + 1].queue, n + 1;
    forall i: nat ensures Holds(q', i) <==> Clean(run, trace, i, m, m) {
      CleanNext(run, trace, i, n);
      HoldsNext(run, trace, i, n, trace[n].queue);
    }
  }

  // ----- The pass in progress -----

  ghost predicate ExaminedIn(run: seq<Event>, trace: seq<State>, from: nat, to: nat, i: nat)
    requires |trace| == |run| + 1 && to <= |run|
  {
    exists k :: from < k < to && Examines(trace[k], run[k], i)
  }

  /** The pass has been going on since its snapshot. */
  ghost predicate Lasting(run: seq<Event>, trace: seq<State>, n: nat, w: Worker)
    requires |trace| == |run| + 1 && n <= |run|
  {
    && w.begun < n && run[w.begun].action.Begin? && !InPass(trace[w.begun])
    && forall k :: w.begun < k <= n ==> InPass(trace[k])
  }

  /** The snapshot holds the pushes that were clean when it was taken, and those looked at since are
      its first `done` entries. */
  ghost predicate SnapshotIsClean(run: seq<Event>, trace: seq<State>, n: nat, w: Worker)
    requires |trace| == |run| + 1 && w.begun <= n <= |run|
  {
    && w.done <= |w.snapshot| && Faithful(run, trace, w.begun, w.snapshot)
    && (forall i: nat :: Holds(w.snapshot, i) <==> Clean(run, trace, i, w.begun, w.begun))
    && (forall i: nat :: Holds(w.snapshot[..w.done], i) <==> ExaminedIn(run, trace, w.begun, n, i))
  }

  /** Of the entries looked at, those still clean are to be written back. */
  ghost predicate StillIsClean(run: seq<Event>, trace: seq<State>, n: nat, w: Worker)
    requires |trace| == |run| + 1 && w.begun <= n <= |run| && w.done <= |w.snapshot|
  {
    && Ordered(w.still) && (forall x :: x in w.still ==> x in w.snapshot[..w.done])
    && forall i: nat :: Holds(w.still, i) <==> Holds(w.snapshot[..w.done], i) && Clean(run, trace, i, w.begun, n)
  }

  ghost predicate PassInv(run: seq<Event>, trace: seq<State>, n: nat, w: Worker)
    requires |trace| == |run| + 1 && n <= |run|
  {
    Lasting(run, trace, n, w) && SnapshotIsClean(run, trace, n, w) && StillIsClean(run, trace, n, w)
  }

  ghost predicate Inv(run: seq<Event>, trace: seq<State>, n: nat)
    requires |trace| == |run| + 1 && n <= |run|
  {
    && Faithful(run, trace, n, trace[n].queue)
    && (!InPass(trace[n]) ==> QueueIsClean(run, trace, n))
    && (InPass(trace[n]) ==> PassInv(run, trace, n, trace[n].worker.value))
  }

  lemma BeginStep(run: seq<Event>, trace: seq<State>, n: nat)
    requires |trace| == |run| + 1 && n < |run| && StepAt(run, trace, n)
    requires !InPass(trace[n]) && run[n].action.Begin?
    requires Faithful(run, trace, n, trace[n].queue) && QueueIsClean(run, trace, n)
    ensures InPass(trace[n + 1]) && PassInv(run, trace, n + 1, trace[n + 1].worker.value)
  {
    assert trace[n + 1].worker == Some(Worker(n, trace[n].queue, 0, []));
  }

  lemma ExaminedNext(run: seq<Event>, trace: seq<State>, from: nat, n: nat, i: nat)
    requires |trace| == |run| + 1 && from < n < |run|
    ensures ExaminedIn(run, trace, from, n + 1, i)
            <==> ExaminedIn(run, trace, from, n, i) || Examines(trace[n], run[n], i)
  {}

  lemma CleanInPass(run: seq<Event>, trace: seq<State>, i: nat, m: nat, n: nat)
    requires |trace| == |run| + 1 && m <= n < |run|
    ensures Clean(run, trace, i, m, n + 1)
            <==> Clean(run, trace, i, m, n)
                 && (Examines(trace[n], run[n], i) ==> run[n].now < Scheduled(trace[i], run[i]).value.deleteAt)
  {}

  /** Whatever does not look and does not write back leaves the worker alone. */
  lemma IdleStep(run: seq<Event>, trace: seq<State>, n: nat)
    requires |trace| == |run| + 1 && n < |run| && StepAt(run, trace, n)
    requires InPass(trace[n]) && PassInv(run, trace, n, trace[n].worker.value)
    requires trace[n + 1].worker == trace[n].worker && !(run[n].action.Look? && CanLook(trace[n]))
    ensures PassInv(run, trace, n + 1, trace[n + 1].worker.value)
  {
    var w := trace[n].worker.value;
    forall i: nat
      ensures ExaminedIn(run, trace, w.begun, n + 1, i) <==> ExaminedIn(run, trace, w.begun, n, i)
      ensures Clean(run, trace, i, w.begun, n + 1) <==> Clean(run, trace, i, w.begun, n)
    {
      ExaminedNext(run, trace, w.begun, n, i);
      CleanInPass(run, trace, i, w.begun, n);
    }
  }

  lemma CleanSinceSnapshot(run: seq<Event>, trace: seq<State>, i: nat, b: nat, n: nat)
    requires |trace| == |run| + 1 && b < n <= |run| && run[b].action.Begin?
    requires Clean(run, trace, i, b, b) && !ExaminedIn(run, trace, b, n, i)
    ensures Clean(run, trace, i, b, n)
  {}

  lemma OneMoreSeen(q: seq<Entry>, done: nat, i: nat)
    requires done < |q| && Ordered(q)
    ensures Holds(q[..done + 1], i) <==> Holds(q[..done], i) || q[done].push == i
    ensures !Holds(q[..done], q[done].push)
  {
    assert q[..done + 1] == q[..done] + [q[done]];
    assert q[done] in q[..done + 1];
  }

  lemma LookKeepsSnapshot(run: seq<Event>, trace: seq<State>, n: nat, w: Worker)
    requires |trace| == |run| + 1 && n < |run| && trace[n].worker == Some(w)
    requires run[n].action.Look? && CanLook(trace[n]) && PassInv(run, trace, n, w)
    ensures SnapshotIsClean(run, trace, n + 1, w.(done := w.done + 1))
  {
    var m, seen := n + 1, w.snapshot[..w.done + 1];
    forall i: nat ensures Holds(seen, i) <==> ExaminedIn(run, trace, w.begun, m, i) {
      OneMoreSeen(w.snapshot, w.done, i);
      ExaminedNext(run, trace, w.begun, n, i);
    }
  }

  /** The entry looked at is clean so far, and stays so if and only if it is not due. */
  lemma LookDecides(run: seq<Event>, trace: seq<State>, n: nat, w: Worker, i: nat)
    requires |trace| == |run| + 1 && n < |run| && trace[n].worker == Some(w)
    requires run[n].action.Look? && CanLook(trace[n]) && PassInv(run, trace, n, w)
    ensures var x := w.snapshot[w.done];
            if i == x.push then Clean(run, trace, i, w.begun, n + 1) <==> run[n].now < x.data.deleteAt
            else Clean(run, trace, i, w.begun, n + 1) <==> Clean(run, trace, i, w.begun, n)
  {
    var x := w.snapshot[w.done];
    CleanInPass(run, trace, i, w.begun, n);
    if i == x.push {
      assert x in w.snapshot && FromPush(run, trace, w.begun, x);
      assert Holds(w.snapshot, i);
      OneMoreSeen(w.snapshot, w.done, i);
      CleanSinceSnapshot(run, trace, i, w.begun, n);
    }
  }

  lemma HoldsOneMore(q: seq<Entry>, x: Entry, i: nat)
    ensures Holds(q + [x], i) <==> Holds(q, i) || x.push == i
  {
    assert x in q + [x];
    if Holds(q, i) {
      var y: Entry :| y in q && y.push == i;
      assert y in q + [x];
    }
  }

  function Looked(w: Worker, now: int): Worker
    requires w.done < |w.snapshot|
  {
    var x := w.snapshot[w.done];
    w.(done := w.done + 1, still := if x.data.deleteAt <= now then w.still else w.still + [x])
  }

  lemma LookKeepsOrder(w: Worker, now: int)
    requires w.done < |w.snapshot| && Ordered(w.snapshot) && Ordered(w.still)
    requires forall x :: x in w.still ==> x in w.snapshot[..w.done]
    ensures Ordered(Looked(w, now).still)
    ensures forall x :: x in Looked(w, now).still ==> x in w.snapshot[..w.done + 1]
  {
    var x := w.snapshot[w.done];
    assert w.snapshot[..w.done + 1] == w.snapshot[..w.done] + [x];
    assert forall y :: y in w.still ==> y.push < x.push;
  }

  lemma LookKeepsStill(run: seq<Event>, trace: seq<State>, n: nat, w: Worker, i: nat)
    requires |trace| == |run| + 1 && n < |run| && trace[n].worker == Some(w)
    requires run[n].action.Look? && CanLook(trace[n]) && PassInv(run, trace, n, w)
    ensures Holds(Looked(w, run[n].now).still, i)
            <==> Holds(w.snapshot[..w.done + 1], i) && Clean(run, trace, i, w.begun, n + 1)
  {
    OneMoreSeen(w.snapshot, w.done, i);
    LookDecides(run, trace, n, w, i);
    HoldsOneMore(w.still, w.snapshot[w.done], i);
  }

  lemma LookStep(run: seq<Event>, trace: seq<State>, n: nat)
    requires |trace| == |run| + 1 && n < |run| && StepAt(run, trace, n)
    requires run[n].action.Look? && CanLook(trace[n]) && PassInv(run, trace, n, trace[n].worker.value)
    ensures InPass(trace[n + 1]) && PassInv(run, trace, n + 1, trace[n + 1].worker.value)
  {
    var w, m := trace[n].worker.value, n + 1;
    var w' := Looked(w, run[n].now);
    assert trace[n + 1].worker == Some(w');
    LookKeepsSnapshot(run, trace, n, w);
    LookKeepsOrder(w, run[n].now);
    forall i: nat
      ensures Holds(w'.still, i) <==> Holds(w'.snapshot[..w'.done], i) && Clean(run, trace, i, w'.begun, m)
    {
      LookKeepsStill(run, trace, n, w, i);
    }
  }

  /** A finished pass leaves as clean the pushes it found clean and did not find due. */
  lemma CleanAcrossPass(run: seq<Event>, trace: seq<State>, i: nat, n: nat, w: Worker)
    requires |trace| == |run| + 1 && n < |run| && Lasting(run, trace, n, w) && run[n].action.End?
    ensures Clean(run, trace, i, n + 1, n + 1) <==> Clean(run, trace, i, w.begun, n)
  {
    assert Clean(run, trace, i, n + 1, n + 1) ==> i < w.begun;
  }

  lemma EndStep(run: seq<Event>, trace: seq<State>, n: nat)
    requires |trace| == |run| + 1 && n < |run| && StepAt(run, trace, n)
    requires run[n].action.End? && InPass(trace[n]) && !CanLook(trace[n])
    requires PassInv(run, trace, n, trace[n].worker.value)
    ensures !InPass(trace[n + 1]) && QueueIsClean(run, trace, n + 1)
  {
    var w, m, q' := trace[n].worker.value, n + 1, trace[n + 1].queue;
    assert w.snapshot[..w.done] == w.snapshot;
    forall i: nat ensures Holds(q', i) <==> Clean(run, trace, i, m, m) {
      CleanAcrossPass(run, trace, i, n, w);
    }
  }

  lemma StillIsFaithful(run: seq<Event>, trace: seq<State>, n: nat, w: Worker)
    requires |trace| == |run| + 1 && n <= |run| && PassInv(run, trace, n, w)
    ensures Faithful(run, trace, n, w.still)
  {
    forall x | x in w.still ensures FromPush(run, trace, n, x) {
      assert x in w.snapshot;
      assert FromPush(run, trace, w.begun, x);
    }
  }

  lemma FaithfulLater(run: seq<Event>, trace: seq<State>, n: nat, q: seq<Entry>)
    requires |trace| == |run| + 1 && n < |run| && Faithful(run, trace, n, q)
    ensures Faithful(run, trace, n + 1, q)
  {
    forall x | x in q ensures FromPush(run, trace, n + 1, x) {
      assert FromPush(run, trace, n, x);
    }
  }

  lemma QueueStaysFaithful(run: seq<Event>, trace: seq<State>, n: nat)
    requires |trace| == |run| + 1 && n < |run| && StepAt(run, trace, n) && Inv(run, trace, n)
    ensures Faithful(run, trace, n + 1, trace[n + 1].queue)
  {
    var s, e := trace[n], run[n];
    if e.action.Look? && CanLook(s) {
      var x := s.worker.value.snapshot[s.worker.value.done].data;
      RetainOrdered(s.queue, (y: Entry) => !(y.data.message == x.message && y.data.owner == x.owner));
      FaithfulLater(run, trace, n, s.queue);
    } else if e.action.End? && InPass(s) {
      StillIsFaithful(run, trace, n, s.worker.value);
      FaithfulLater(run, trace, n, trace[n + 1].queue);
    } else {
      QueueNext(s, n, e);
      RetainOrdered(s.queue, (x: Entry) => !Cancels(s, e, x.data));
      FaithfulLater(run, trace, n, s.queue);
    }
  }

  lemma KeepsInv(run: seq<Event>, trace: seq<State>, n: nat)
    requires |trace| == |run| + 1 && n < |run| && StepAt(run, trace, n) && Inv(run, trace, n)
    ensures Inv(run, trace, n + 1)
  {
    QueueStaysFaithful(run, trace, n);
    if !InPass(trace[n]) {
      if run[n].action.Begin? { BeginStep(run, trace, n); } else { OutsideStep(run, trace, n); }
    } else if run[n].action.Look? && CanLook(trace[n]) {
      LookStep(run, trace, n);
    } else if run[n].action.End? && !CanLook(trace[n]) {
      EndStep(run, trace, n);
    } else {
      IdleStep(run, trace, n);
    }
  }

  lemma {:induction false} InvAlways(run: seq<Event>, trace: seq<State>, n: nat)
    requires IsTrace(run, trace) && n <= |run|
    ensures Inv(run, trace, n)
  {
    if n > 0 {
      InvAlways(run, trace, n - 1);
      assert StepAt(run, trace, n - 1);
      KeepsInv(run, trace, n - 1);
    }
  }

  /** Over every run, between passes the queue holds exactly the pushes that fell outside passes,
      were not cancelled outside passes and were not due when looked at. */
  lemma QueueBetweenPasses(run: seq<Event>, trace: seq<State>, n: nat, i: nat)
    requires IsTrace(run, trace) && n <= |run| && !InPass(trace[n])
    ensures Holds(trace[n].queue, i) <==> Clean(run, trace, i, n, n)
  {
    InvAlways(run, trace, n);
  }

  // ----- When is a push carried out? -----

  /** Event `k` finds the entry pushed by event `i` due and deletes its message. */
  ghost predicate CarriesOut(run: seq<Event>, trace: seq<State>, k: nat, i: nat)
    requires |trace| == |run| + 1 && i < k < |run|
  {
    && Scheduled(trace[i], run[i]).Some? && Examines(trace[k], run[k], i)
    && Scheduled(trace[i], run[i]).value.deleteAt <= run[k].now
  }

  lemma CarriedOutIsDeleted(run: seq<Event>, trace: seq<State>, k: nat, i: nat)
    requires IsTrace(run, trace) && i < k < |run| && CarriesOut(run, trace, k, i)
    ensures var p := Scheduled(trace[i], run[i]).value;
            trace[k + 1].deletions == trace[k].deletions + [(p.owner, p.message)]
  {
    InvAlways(run, trace, k);
    assert StepAt(run, trace, k);
    var w := trace[k].worker.value;
    assert w.snapshot[w.done] in w.snapshot;
    assert FromPush(run, trace, w.begun, w.snapshot[w.done]);
  }

  /** A pass from its snapshot at event `b` to its write-back at event `e`. */
  ghost predicate IsPass(run: seq<Event>, trace: seq<State>, b: nat, e: nat)
    requires |trace| == |run| + 1
  {
    && b < e < |run| && run[b].action.Begin? && !InPass(trace[b])
    && (forall k :: b < k <= e ==> InPass(trace[k]))
    && run[e].action.End? && !CanLook(trace[e])
  }

  /** A finished pass looks at exactly the pushes that were clean when it began. */
  lemma PassExaminesClean(run: seq<Event>, trace: seq<State>, b: nat, e: nat, i: nat)
    requires IsTrace(run, trace) && IsPass(run, trace, b, e)
    ensures ExaminedIn(run, trace, b, e, i) <==> Clean(run, trace, i, b, b)
  {
    InvAlways(run, trace, e);
    var w := trace[e].worker.value;
    assert w.begun == b;
    assert w.snapshot[..w.done] == w.snapshot;
  }

  /** Whatever is looked at was clean when the pass began and is looked at for the first time in it. */
  lemma ExaminedWasClean(run: seq<Event>, trace: seq<State>, k: nat, i: nat) returns (b: nat)
    requires IsTrace(run, trace) && k < |run| && Examines(trace[k], run[k], i)
    ensures b < k && Clean(run, trace, i, b, b) && !ExaminedIn(run, trace, b, k, i)
    ensures run[b].action.Begin? && !InPass(trace[b]) && forall l :: b < l <= k ==> InPass(trace[l])
  {
    InvAlways(run, trace, k);
    var w := trace[k].worker.value;
    b := w.begun;
    assert w.snapshot[w.done] in w.snapshot;
    assert Holds(w.snapshot, i);
    OneMoreSeen(w.snapshot, w.done, i);
  }

  lemma CarriedOutAtMostOnce(run: seq<Event>, trace: seq<State>, i: nat, k: nat, l: nat)
    requires IsTrace(run, trace) && i < k < l < |run|
    requires CarriesOut(run, trace, k, i)
    ensures !CarriesOut(run, trace, l, i)
  {
    if CarriesOut(run, trace, l, i) {
      var b := ExaminedWasClean(run, trace, l, i);
    }
  }

  /** A cancellation outside passes that comes before the push is carried out. */
  ghost predicate CancelledInTime(run: seq<Event>, trace: seq<State>, i: nat, n: nat)
    requires |trace| == |run| + 1 && i < n <= |run| && Scheduled(trace[i], run[i]).Some?
  {
    exists k :: i < k < n && Cancels(trace[k], run[k], Scheduled(trace[i], run[i]).value) && !InPass(trace[k])
                && forall d :: i < d < k ==> !CarriesOut(run, trace, d, i)
  }

  lemma CarriedOutNotCancelled(run: seq<Event>, trace: seq<State>, i: nat, k: nat, n: nat)
    requires IsTrace(run, trace) && i < k < |run| && i < n <= |run| && CarriesOut(run, trace, k, i)
    ensures !InPass(trace[i]) && !CancelledInTime(run, trace, i, n)
  {
    var b := ExaminedWasClean(run, trace, k, i);
    forall l | i < l < n && Cancels(trace[l], run[l], Scheduled(trace[i], run[i]).value) && !InPass(trace[l])
      ensures exists d :: i < d < l && CarriesOut(run, trace, d, i)
    {
      assert k < l;
    }
  }

  lemma UncancelledCarriedOut(run: seq<Event>, trace: seq<State>, i: nat, b: nat, e: nat)
    requires IsTrace(run, trace) && IsPass(run, trace, b, e)
    requires i < b && Scheduled(trace[i], run[i]).Some?
    requires forall k :: b < k < e ==> Scheduled(trace[i], run[i]).value.deleteAt <= run[k].now
    requires !InPass(trace[i]) && !CancelledInTime(run, trace, i, b)
    ensures exists k :: i < k < e && CarriesOut(run, trace, k, i)
  {
    if forall k :: i < k < b ==> !CarriesOut(run, trace, k, i) {
      forall k | i < k < b && Examines(trace[k], run[k], i)
        ensures run[k].now < Scheduled(trace[i], run[i]).value.deleteAt
      {
        assert !CarriesOut(run, trace, k, i);
      }
      assert Clean(run, trace, i, b, b);
      PassExaminesClean(run, trace, b, e, i);
      var k :| b < k < e && Examines(trace[k], run[k], i);
      assert CarriesOut(run, trace, k, i);
    }
  }

  /** A read that pushes its entry between a snapshot and its write-back is never carried out, by
      that pass or a later one. */
  lemma ReadDuringPassLost(run: seq<Event>, trace: seq<State>, i: nat, k: nat)
    requires IsTrace(run, trace) && i < k < |run| && InPass(trace[i])
    ensures !CarriesOut(run, trace, k, i)
  {
    if CarriesOut(run, trace, k, i) { CarriedOutNotCancelled(run, trace, i, k, k); }
  }

  /** Once a pass has begun and finished after its due time, a read that pushed an entry has been
      carried out if and only if the push did not fall between a snapshot and its write-back and no
      cancellation or deletion by hand came in time outside such a gap. */
  lemma ReadCarriedOutIff(run: seq<Event>, trace: seq<State>, i: nat, b: nat, e: nat)
    requires IsTrace(run, trace) && IsPass(run, trace, b, e)
    requires i < b && Scheduled(trace[i], run[i]).Some?
    requires forall k :: b < k < e ==> Scheduled(trace[i], run[i]).value.deleteAt <= run[k].now
    ensures (exists k :: i < k < e && CarriesOut(run, trace, k, i))
            <==> !InPass(trace[i]) && !CancelledInTime(run, trace, i, b)
  {
    if k :| i < k < e && CarriesOut(run, trace, k, i) {
      CarriedOutNotCancelled(run, trace, i, k, b);
    }
    if !InPass(trace[i]) && !CancelledInTime(run, trace, i, b) {
      UncancelledCarriedOut(run, trace, i, b, e);
    }
  }

  // ----- Which timer is set? -----

  /** The event stores a timer for the conversation. */
  predicate StoresTimer(s: State, e: Event, owner: string, conversation: string) {
    e.action.StoreTimer? && e.action.owner == owner && e.action.conversation == conversation
    && e.action.caller !in s.callers
  }

  lemma TimerNext(s: State, n: nat, e: Event, owner: string, conversation: string)
    ensures var key, s' := (owner, conversation), Next(s, n, e);
            if StoresTimer(s, e, owner, conversation) then key in s'.settings && s'.settings[key] == e.action.timer
            else (key in s'.settings <==> key in s.settings) && (key in s.settings ==> s'.settings[key] == s.settings[key])
  {}

  /** Over every run, the timer of a conversation is the one its owner stored last. */
  lemma {:induction false} TimerStoredLast(run: seq<Event>, trace: seq<State>, n: nat,
                                           owner: string, conversation: string, timer: E.Timer)
    requires IsTrace(run, trace) && n <= |run|
    ensures (owner, conversation) in trace[n].settings && trace[n].settings[(owner, conversation)] == timer
            <==> exists i :: 0 <= i < n && StoresTimer(trace[i], run[i], owner, conversation)
                             && run[i].action.timer == timer
                             && forall k :: i < k < n ==> !StoresTimer(trace[k], run[k], owner, conversation)
  {
    if n > 0 {
      TimerStoredLast(run, trace, n - 1, owner, conversation, timer);
      assert StepAt(run, trace, n - 1);
      TimerNext(trace[n - 1], n - 1, run[n - 1], owner, conversation);
    }
  }

  // ----- Where pushes and cancellations come from -----

  /** Event `r` is the timer lookup behind an intent to push. */
  ghost predicate LooksUp(run: seq<Event>, trace: seq<State>, r: nat, c: nat, intent: Intent)
    requires |trace| == |run| + 1 && r < |run| && intent.Reading?
  {
    && run[r].action == ReadTimer(c, intent.owner, intent.message, intent.conversation)
    && IsOn(trace[r].settings, intent.owner, intent.conversation)
    && trace[r].settings[(intent.owner, intent.conversation)] == intent.timer
  }

  ghost predicate IntentInv(run: seq<Event>, trace: seq<State>, n: nat, c: nat, intent: Intent)
    requires |trace| == |run| + 1 && n <= |run|
  {
    match intent
    case Reading(_, _, _, _) => exists r :: 0 <= r < n && LooksUp(run, trace, r, c, intent)
    case Cancelling(owner, conversation) =>
      exists r :: 0 <= r < n && run[r].action == StoreTimer(c, owner, conversation, E.Off)
  }

  lemma KeepsIntentInv(run: seq<Event>, trace: seq<State>, n: nat, c: nat)
    requires |trace| == |run| + 1 && n < |run| && StepAt(run, trace, n) && c in trace[n + 1].callers
    requires c in trace[n].callers ==> IntentInv(run, trace, n, c, trace[n].callers[c])
    ensures IntentInv(run, trace, n + 1, c, trace[n + 1].callers[c])
  {
    var intent := trace[n + 1].callers[c];
    if c in trace[n].callers {
      assert trace[n].callers[c] == intent;
    } else if intent.Reading? {
      assert LooksUp(run, trace, n, c, intent);
    } else {
      assert run[n].action == StoreTimer(c, intent.owner, intent.conversation, E.Off);
    }
  }

  lemma {:induction false} IntentInvAlways(run: seq<Event>, trace: seq<State>, n: nat, c: nat)
    requires IsTrace(run, trace) && n <= |run| && c in trace[n].callers
    ensures IntentInv(run, trace, n, c, trace[n].callers[c])
  {
    if n > 0 {
      assert StepAt(run, trace, n - 1);
      if c in trace[n - 1].callers { IntentInvAlways(run, trace, n - 1, c); }
      KeepsIntentInv(run, trace, n - 1, c);
    }
  }

  /** Every pushed entry stems from an earlier lookup by its caller that found the timer on, and is
      due that timer's seconds after the push, whatever the timer says by then. */
  lemma PushHasLookup(run: seq<Event>, trace: seq<State>, i: nat) returns (r: nat)
    requires IsTrace(run, trace) && i < |run| && IsPush(trace[i], run[i])
    ensures var p := Scheduled(trace[i], run[i]).value;
            && r < i && run[r].action == ReadTimer(run[i].action.caller, p.owner, p.message, p.conversation)
            && IsOn(trace[r].settings, p.owner, p.conversation)
            && p.deleteAt == run[i].now + E.Seconds(trace[r].settings[(p.owner, p.conversation)])
  {
    var c := run[i].action.caller;
    IntentInvAlways(run, trace, i, c);
    r :| 0 <= r < i && LooksUp(run, trace, r, c, trace[i].callers[c]);
  }

  /** Every cancellation follows the storing of the timer's end by its caller. */
  lemma CancelHasStore(run: seq<Event>, trace: seq<State>, i: nat) returns (r: nat)
    requires IsTrace(run, trace) && i < |run| && IsCancel(trace[i], run[i])
    ensures var intent := trace[i].callers[run[i].action.caller];
            r < i && run[r].action == StoreTimer(run[i].action.caller, intent.owner, intent.conversation, E.Off)
  {
    var c := run[i].action.caller;
    IntentInvAlways(run, trace, i, c);
    r :| 0 <= r < i && run[r].action == StoreTimer(c, trace[i].callers[c].owner, trace[i].callers[c].conversation, E.Off);
  }

  // ----- Which messages are tracked? -----

  /** The event deletes the message, by hand or because it is due. */
  predicate DeletesMessage(s: State, e: Event, owner: string, message: string) {
    || e.action == Delete(owner, message)
    || (e.action.Look? && CanLook(s)
        && var x := s.worker.value.snapshot[s.worker.value.done].data;
           x.deleteAt <= e.now && x.owner == owner && x.message == message)
  }

  predicate RegistersMessage(s: State, e: Event, owner: string, message: string) {
    e.action.Register? && e.action.owner == owner && e.action.message == message
    && IsOn(s.settings, owner, e.action.conversation)
  }

  lemma TrackedNext(s: State, n: nat, e: Event, owner: string, message: string)
    ensures (owner, message) in Next(s, n, e).tracked
            <==> RegistersMessage(s, e, owner, message)
                 || ((owner, message) in s.tracked && !DeletesMessage(s, e, owner, message))
  {}

  /** A message is tracked if and only if it was registered with the timer on and not deleted since. */
  lemma {:induction false} TrackedIff(run: seq<Event>, trace: seq<State>, n: nat, owner: string, message: string)
    requires IsTrace(run, trace) && n <= |run|
    ensures (owner, message) in trace[n].tracked
            <==> exists i :: 0 <= i < n && RegistersMessage(trace[i], run[i], owner, message)
                             && forall k :: i < k < n ==> !DeletesMessage(trace[k], run[k], owner, message)
  {
    if n > 0 {
      TrackedIff(run, trace, n - 1, owner, message);
      assert StepAt(run, trace, n - 1);
      TrackedNext(trace[n - 1], n - 1, run[n - 1], owner, message);
    }
  }

  // ----- Runs in which a read is lost, a cancellation undone, or overtaken -----

  /** The timer is on and a caller has looked it up. */
  function Opened(owner: string, message: string, conversation: string): State {
    State(map[(owner, conversation) := E.FiveSeconds], {}, [], None, [],
          map[1 := Reading(owner, message, conversation, E.FiveSeconds)])
  }

  lemma LookedUp(owner: string, message: string, conversation: string) returns (run: seq<Event>)
    ensures StateAfter(run) == Opened(owner, message, conversation)
  {
    var store, lookup := StoreTimer(0, owner, conversation, E.FiveSeconds), ReadTimer(1, owner, message, conversation);
    StateAfterSnoc([], Event(0, store));
    StateAfterSnoc([Event(0, store)], Event(0, lookup));
    run := [Event(0, store)] + [Event(0, lookup)];
  }

  lemma Then(run: seq<Event>, e: Event, s: State, s': State) returns (run': seq<Event>)
    requires StateAfter(run) == s && Next(s, |run|, e) == s'
    ensures run' == run + [e] && StateAfter(run') == s'
  {
    StateAfterSnoc(run, e);
    run' := run + [e];
  }

  /** The entry is pushed at event `i`, during a pass that found nothing. */
  lemma PushedDuringPass(owner: string, message: string, conversation: string) returns (run: seq<Event>, i: nat, p: Entry)
    ensures i < |run| && IsPush(StateAfter(run[..i]), run[i]) && run[i].now == 0
    ensures var s := StateAfter(run);
            && s.settings == map[(owner, conversation) := E.FiveSeconds] && s.tracked == {} && s.queue == [p]
            && s.deletions == [] && s.callers == map[]
            && s.worker.Some? && s.worker.value.snapshot == [] == s.worker.value.still && s.worker.value.done == 0
  {
    run := LookedUp(owner, message, conversation);
    var s := StateAfter(run);
    var passing := s.(worker := Some(Worker(|run|, [], 0, [])));
    run := Then(run, Event(0, Begin), s, passing);
    i, p := |run|, Entry(|run|, E.Pending(message, conversation, owner, 5));
    var before := run;
    assert passing.callers - {1} == map[];
    run := Then(run, Event(0, Push(1)), passing, passing.(queue := [p], callers := map[]));
    assert run[..i] == before;
  }

  /** A pass over nothing, in which nothing else happens. */
  lemma EmptyPass(run: seq<Event>, now: int) returns (run': seq<Event>)
    requires !InPass(StateAfter(run)) && StateAfter(run).queue == []
    ensures run' == run + [Event(now, Begin), Event(now, End)] && StateAfter(run') == StateAfter(run)
  {
    var s := StateAfter(run);
    var passing := s.(worker := Some(Worker(|run|, [], 0, [])));
    run' := Then(run, Event(now, Begin), s, passing);
    run' := Then(run', Event(now, End), passing, s);
  }

  /** A message read during a pass: another pass, long after its due time, finds nothing. */
  lemma ReadLost(owner: string, message: string, conversation: string) returns (run: seq<Event>, i: nat)
    ensures i < |run| && IsPush(StateAfter(run[..i]), run[i]) && run[i].now == 0
    ensures |run| >= 2 && run[|run| - 2] == Event(100, Begin) && run[|run| - 1] == Event(100, End)
    ensures var s := StateAfter(run);
            !InPass(s) && s.queue == [] && s.deletions == [] && s.callers == map[] && IsOn(s.settings, owner, conversation)
  {
    var p;
    run, i, p := PushedDuringPass(owner, message, conversation);
    var before, s := run, StateAfter(run);
    run := Then(run, Event(0, End), s, s.(queue := [], worker := None));
    run := EmptyPass(run, 100);
    assert run[..i] == before[..i] && run[i] == before[i];
  }

  /** One entry, due at time 5, in the queue. */
  lemma OnePending(owner: string, message: string, conversation: string) returns (run: seq<Event>, p: Entry)
    ensures p.data == E.Pending(message, conversation, owner, 5)
    ensures StateAfter(run) == Opened(owner, message, conversation).(queue := [p], callers := map[])
  {
    run := LookedUp(owner, message, conversation);
    var s := StateAfter(run);
    assert s.callers - {1} == map[];
    p := Entry(|run|, E.Pending(message, conversation, owner, 5));
    run := Then(run, Event(0, Push(1)), s, s.(queue := [p], callers := map[]));
  }

  lemma RetainOne(p: Entry, keep: Entry -> bool)
    ensures E.Retain([p], keep) == if keep(p) then [p] else []
  {
    assert [p][..0] == [];
  }

  /** A pass has looked at the one entry and found it not due. */
  lemma OneLookedAt(owner: string, message: string, conversation: string) returns (run: seq<Event>, p: Entry, w: Worker)
    ensures p.data == E.Pending(message, conversation, owner, 5)
    ensures w.snapshot == [p] == w.still && w.done == 1
    ensures StateAfter(run)
            == State(map[(owner, conversation) := E.FiveSeconds], {}, [p], Some(w), [], map[])
  {
    run, p := OnePending(owner, message, conversation);
    var s, w0 := StateAfter(run), Worker(|run|, [p], 0, []);
    w := w0.(done := 1, still := [p]);
    run := Then(run, Event(0, Begin), s, s.(worker := Some(w0)));
    assert w0.still + [p] == [p];
    run := Then(run, Event(0, Look), s.(worker := Some(w0)), s.(worker := Some(w)));
  }

  /** The timer turned off by caller 2, with one entry in the queue. */
  lemma TurnedOff(run: seq<Event>, owner: string, conversation: string, p: Entry) returns (run': seq<Event>)
    requires StateAfter(run).queue == [p] && p.data.owner == owner && p.data.conversation == conversation
    requires StateAfter(run).callers == map[]
    ensures var s := StateAfter(run);
            StateAfter(run') == s.(settings := s.settings[(owner, conversation) := E.Off], queue := [])
  {
    var s := StateAfter(run);
    var off := s.(settings := s.settings[(owner, conversation) := E.Off],
                  callers := map[2 := Cancelling(owner, conversation)]);
    run' := Then(run, Event(0, StoreTimer(2, owner, conversation, E.Off)), s, off);
    RetainOne(p, (x: Entry) => !(x.data.conversation == conversation && x.data.owner == owner));
    assert off.callers - {2} == map[];
    run' := Then(run', Event(0, CancelAll(2)), off, off.(queue := [], callers := map[]));
  }

  /** The timer turned off during a pass; the first `n` events end with the cancellation. */
  lemma CancelledDuringPass(owner: string, message: string, conversation: string)
    returns (run: seq<Event>, n: nat, p: Entry)
    ensures p.data == E.Pending(message, conversation, owner, 5) && n <= |run|
    ensures StateAfter(run[..n]).queue == [] && StateAfter(run[..n]).settings == map[(owner, conversation) := E.Off]
    ensures StateAfter(run) == State(map[(owner, conversation) := E.Off], {}, [p], None, [], map[])
  {
    var w;
    run, p, w := OneLookedAt(owner, message, conversation);
    run := TurnedOff(run, owner, conversation, p);
    var cancelled, s := run, StateAfter(run);
    assert s.settings == map[(owner, conversation) := E.Off];
    n := |run|;
    run := Then(run, Event(0, End), s, s.(queue := [p], worker := None));
    assert run[..n] == cancelled;
  }

  /** A pass at time 5 deletes the message of the one entry. */
  lemma DeletedByPass(run: seq<Event>, p: Entry) returns (run': seq<Event>)
    requires StateAfter(run).queue == [p] && !InPass(StateAfter(run)) && StateAfter(run).deletions == []
    requires p.data.deleteAt <= 5
    ensures run <= run' && StateAfter(run').settings == StateAfter(run).settings
    ensures StateAfter(run').deletions == [(p.data.owner, p.data.message)]
  {
    StateAfterSnoc(run, Event(5, Begin));
    run' := run + [Event(5, Begin)];
    StateAfterSnoc(run', Event(5, Look));
    run' := run' + [Event(5, Look)];
  }

  /** Deletions are never taken back. */
  lemma {:induction false} NoDeletionBefore(run: seq<Event>, n: nat)
    requires n <= |run| && StateAfter(run).deletions == []
    ensures StateAfter(run[..n]).deletions == []
    decreases |run|
  {
    if n < |run| {
      assert run[..|run| - 1][..n] == run[..n];
      NoDeletionBefore(run[..|run| - 1], n);
    } else {
      assert run[..n] == run;
    }
  }

  /** A cancellation during a pass is undone by the write-back: with the timer off and nothing
      pending, the message is deleted later. */
  lemma CancellationUndone(owner: string, message: string, conversation: string) returns (run: seq<Event>, n: nat)
    ensures n <= |run| && StateAfter(run[..n]).queue == [] && StateAfter(run[..n]).deletions == []
    ensures StateAfter(run[..n]).settings == map[(owner, conversation) := E.Off] == StateAfter(run).settings
    ensures StateAfter(run).deletions == [(owner, message)]
  {
    var before, p;
    before, n, p := CancelledDuringPass(owner, message, conversation);
    NoDeletionBefore(before, n);
    run := DeletedByPass(before, p);
    assert run[..n] == before[..n];
  }

  /** A cancellation between the timer lookup and the push comes too early: with the timer off a
      deletion is scheduled. */
  lemma CancelledTooEarly(owner: string, message: string, conversation: string) returns (run: seq<Event>)
    ensures var s := StateAfter(run);
            && s.settings == map[(owner, conversation) := E.Off] && s.callers == map[]
            && |s.queue| == 1 && s.queue[0].data == E.Pending(message, conversation, owner, 5)
  {
    run := LookedUp(owner, message, conversation);
    var s := StateAfter(run);
    var off := s.(settings := map[(owner, conversation) := E.Off],
                  callers := s.callers[2 := Cancelling(owner, conversation)]);
    run := Then(run, Event(0, StoreTimer(2, owner, conversation, E.Off)), s, off);
    assert off.callers - {2} == s.callers && s.callers - {1} == map[];
    run := Then(run, Event(0, CancelAll(2)), off, off.(callers := s.callers));
    var p := Entry(|run|, E.Pending(message, conversation, owner, 5));
    run := Then(run, Event(0, Push(1)), off.(callers := s.callers), off.(queue := [p], callers := map[]));
  }

}
