/** The disappearing-message service itself. It remembers, as ghost state, the run it has been
    through, and its fields are at all times what that run says. */
module EphemeralService {
  import opened Common
  import E = Ephemeral
  import opened EphemeralRuns

  function Untag(q: seq<Entry>): seq<E.Pending> {
    seq(|q|, i requires 0 <= i < |q| => q[i].data)
  }

  lemma {:induction false} UntagRetain(q: seq<Entry>, keep: E.Pending -> bool)
    ensures Untag(E.Retain(q, (x: Entry) => keep(x.data))) == E.Retain(Untag(q), keep)
  {
    if q != [] {
      UntagRetain(q[..|q| - 1], keep);
      assert Untag(q)[..|q| - 1] == Untag(q[..|q| - 1]);
    }
  }

  lemma {:induction false} RetainMembers<T>(q: seq<T>, keep: T -> bool)
    ensures forall x :: x in E.Retain(q, keep) <==> x in q && keep(x)
  {
    if q != [] {
      RetainMembers(q[..|q| - 1], keep);
      assert q == q[..|q| - 1] + [q[|q| - 1]];
    }
  }

  lemma UncancelledMembers(q: seq<E.Pending>, owner: string, conversation: string)
    ensures forall p :: p in E.Uncancelled(q, owner, conversation)
                        <==> p in q && !(p.conversation == conversation && p.owner == owner)
  {
    RetainMembers(q, (p: E.Pending) => !(p.conversation == conversation && p.owner == owner));
  }

  lemma UndeletedMembers(q: seq<E.Pending>, owner: string, message: string)
    ensures forall p :: p in E.Undeleted(q, owner, message) <==> p in q && !(p.message == message && p.owner == owner)
  {
    RetainMembers(q, (p: E.Pending) => !(p.message == message && p.owner == owner));
  }

  // ----- Single events, as the service sees its queue -----

  lemma UntagCancelled(q: seq<Entry>, owner: string, conversation: string)
    ensures Untag(E.Retain(q, (x: Entry) => !(x.data.conversation == conversation && x.data.owner == owner)))
            == E.Uncancelled(Untag(q), owner, conversation)
  {
    var keep := (p: E.Pending) => !(p.conversation == conversation && p.owner == owner);
    UntagRetain(q, keep);
    E.RetainSame(q, (x: Entry) => keep(x.data),
                 (x: Entry) => !(x.data.conversation == conversation && x.data.owner == owner));
  }

  lemma UntagDeleted(q: seq<Entry>, owner: string, message: string)
    ensures Untag(E.Retain(q, (x: Entry) => !(x.data.message == message && x.data.owner == owner)))
            == E.Undeleted(Untag(q), owner, message)
  {
    var keep := (p: E.Pending) => !(p.message == message && p.owner == owner);
    UntagRetain(q, keep);
    E.RetainSame(q, (x: Entry) => keep(x.data), (x: Entry) => !(x.data.message == message && x.data.owner == owner));
  }

  // ----- The same calls with every pass as one event -----

  function SettingsAfter(calls: seq<E.Event>): E.Settings { E.SettingsAt(calls, |calls|) }

  function QueueAfter(calls: seq<E.Event>): seq<E.Pending> { E.QueueAt(calls, |calls|) }

  lemma {:induction false} SettingsPrefix(calls: seq<E.Event>, e: E.Event, n: nat)
    requires n <= |calls|
    ensures E.SettingsAt(calls + [e], n) == E.SettingsAt(calls, n)
  {
    if n > 0 { SettingsPrefix(calls, e, n - 1); }
  }

  lemma ScheduledPrefix(calls: seq<E.Event>, e: E.Event, i: nat)
    requires i < |calls|
    ensures E.ScheduledList(calls + [e], i) == E.ScheduledList(calls, i)
  {
    SettingsPrefix(calls, e, i);
  }

  lemma QueueUnfold(calls: seq<E.Event>, n: nat, q: seq<E.Pending>, e: E.Event, scheduled: seq<E.Pending>)
    requires 0 < n <= |calls| && E.QueueAt(calls, n - 1) == q && calls[n - 1] == e
    requires E.ScheduledList(calls, n - 1) == scheduled
    ensures E.QueueAt(calls, n) == E.NextQueue(q, e, scheduled)
  {}

  lemma {:induction false} QueuePrefix(calls: seq<E.Event>, e: E.Event, n: nat)
    requires n <= |calls|
    ensures E.QueueAt(calls + [e], n) == E.QueueAt(calls, n)
  {
    if n > 0 {
      QueuePrefix(calls, e, n - 1);
      ScheduledPrefix(calls, e, n - 1);
      var q, scheduled := E.QueueAt(calls, n - 1), E.ScheduledList(calls, n - 1);
      QueueUnfold(calls, n, q, calls[n - 1], scheduled);
      QueueUnfold(calls + [e], n, q, calls[n - 1], scheduled);
    }
  }

  lemma AtomicPrefix(calls: seq<E.Event>, e: E.Event)
    ensures E.SettingsAt(calls + [e], |calls|) == SettingsAfter(calls)
    ensures E.QueueAt(calls + [e], |calls|) == QueueAfter(calls)
  {
    SettingsPrefix(calls, e, |calls|);
    QueuePrefix(calls, e, |calls|);
  }

  lemma AtomicSetTimer(calls: seq<E.Event>, now: int, owner: string, conversation: string, timer: E.Timer)
    ensures var calls' := calls + [E.Event(now, E.SetTimer(owner, conversation, timer))];
            && SettingsAfter(calls') == SettingsAfter(calls)[(owner, conversation) := timer]
            && QueueAfter(calls') == if timer == E.Off then E.Uncancelled(QueueAfter(calls), owner, conversation)
                                     else QueueAfter(calls)
  {
    AtomicPrefix(calls, E.Event(now, E.SetTimer(owner, conversation, timer)));
  }

  /** The entry that a read asks for, if the timer is on. */
  function WantedList(settings: E.Settings, now: int, owner: string, message: string, conversation: string): seq<E.Pending> {
    if IsOn(settings, owner, conversation)
    then [E.Pending(message, conversation, owner, now + E.Seconds(settings[(owner, conversation)]))]
    else []
  }

  lemma AtomicMarkRead(calls: seq<E.Event>, now: int, owner: string, message: string, conversation: string)
    ensures var calls' := calls + [E.Event(now, E.MarkRead(owner, message, conversation))];
            && SettingsAfter(calls') == SettingsAfter(calls)
            && QueueAfter(calls')
               == QueueAfter(calls) + WantedList(SettingsAfter(calls), now, owner, message, conversation)
  {
    AtomicPrefix(calls, E.Event(now, E.MarkRead(owner, message, conversation)));
  }

  lemma AtomicDelete(calls: seq<E.Event>, now: int, owner: string, message: string)
    ensures var calls' := calls + [E.Event(now, E.Delete(owner, message))];
            && SettingsAfter(calls') == SettingsAfter(calls)
            && QueueAfter(calls') == E.Undeleted(QueueAfter(calls), owner, message)
  {
    AtomicPrefix(calls, E.Event(now, E.Delete(owner, message)));
  }

  lemma AtomicPass(calls: seq<E.Event>, now: int)
    ensures var calls' := calls + [E.Event(now, E.Pass)];
            && SettingsAfter(calls') == SettingsAfter(calls)
            && QueueAfter(calls') == E.NotDue(QueueAfter(calls), now)
  {
    AtomicPrefix(calls, E.Event(now, E.Pass));
  }

  // ----- Reads and passes as events -----

  /** The two steps of `mark_message_read` by caller 0. */
  function ReadEvents(now: int, owner: string, message: string, conversation: string): seq<Event> {
    [Event(now, ReadTimer(0, owner, message, conversation)), Event(now, Push(0))]
  }

  /** The steps of `set_timer` by caller 0. */
  function TimerEvents(now: int, owner: string, conversation: string, timer: E.Timer): seq<Event> {
    [Event(now, StoreTimer(0, owner, conversation, timer))]
    + if timer == E.Off then [Event(now, CancelAll(0))] else []
  }

  lemma AfterLookup(run: seq<Event>, now: int, owner: string, message: string, conversation: string)
    requires StateAfter(run).callers == map[]
    ensures var s := StateAfter(run);
            StateAfter(run + [Event(now, ReadTimer(0, owner, message, conversation))])
            == if IsOn(s.settings, owner, conversation)
               then s.(callers := map[0 := Reading(owner, message, conversation, s.settings[(owner, conversation)])])
               else s
  {
    StateAfterSnoc(run, Event(now, ReadTimer(0, owner, message, conversation)));
  }

  lemma AfterPush(run: seq<Event>, now: int, r: Intent)
    requires r.Reading? && StateAfter(run).callers == map[0 := r]
    ensures var s, s' := StateAfter(run), StateAfter(run + [Event(now, Push(0))]);
            && s' == s.(queue := s'.queue, callers := map[])
            && Untag(s'.queue)
               == Untag(s.queue) + [E.Pending(r.message, r.conversation, r.owner, now + E.Seconds(r.timer))]
  {
    StateAfterSnoc(run, Event(now, Push(0)));
    assert StateAfter(run).callers - {0} == map[];
  }

  lemma AfterIdlePush(run: seq<Event>, now: int)
    requires StateAfter(run).callers == map[]
    ensures StateAfter(run + [Event(now, Push(0))]) == StateAfter(run)
  {
    StateAfterSnoc(run, Event(now, Push(0)));
  }

  lemma AfterRead(run: seq<Event>, now: int, owner: string, message: string, conversation: string)
    requires StateAfter(run).callers == map[]
    ensures var s, s' := StateAfter(run), StateAfter(run + ReadEvents(now, owner, message, conversation));
            && s' == s.(queue := s'.queue)
            && Untag(s'.queue) == Untag(s.queue) + WantedList(s.settings, now, owner, message, conversation)
  {
    var s, lookup := StateAfter(run), Event(now, ReadTimer(0, owner, message, conversation));
    AfterLookup(run, now, owner, message, conversation);
    if IsOn(s.settings, owner, conversation) {
      AfterPush(run + [lookup], now, Reading(owner, message, conversation, s.settings[(owner, conversation)]));
    } else {
      AfterIdlePush(run + [lookup], now);
    }
    assert run + [lookup] + [Event(now, Push(0))] == run + ReadEvents(now, owner, message, conversation);
  }

  lemma AfterTimer(run: seq<Event>, now: int, owner: string, conversation: string, timer: E.Timer)
    requires StateAfter(run).callers == map[]
    ensures var s, s' := StateAfter(run), StateAfter(run + TimerEvents(now, owner, conversation, timer));
            && s' == s.(settings := s.settings[(owner, conversation) := timer], queue := s'.queue)
            && Untag(s'.queue) == if timer == E.Off then E.Uncancelled(Untag(s.queue), owner, conversation)
                                  else Untag(s.queue)
  {
    var store := Event(now, StoreTimer(0, owner, conversation, timer));
    StateAfterSnoc(run, store);
    if timer == E.Off {
      StateAfterSnoc(run + [store], Event(now, CancelAll(0)));
      assert run + [store] + [Event(now, CancelAll(0))] == run + TimerEvents(now, owner, conversation, timer);
      UntagCancelled(StateAfter(run).queue, owner, conversation);
      assert StateAfter(run + TimerEvents(now, owner, conversation, timer)).callers == map[];
    } else {
      assert run + [store] == run + TimerEvents(now, owner, conversation, timer);
    }
  }

  lemma AfterBegin(run: seq<Event>, now: int)
    requires !InPass(StateAfter(run))
    ensures var s := StateAfter(run);
            StateAfter(run + [Event(now, Begin)]) == s.(worker := Some(Worker(|run|, s.queue, 0, [])))
  {
    StateAfterSnoc(run, Event(now, Begin));
  }

  lemma AfterEnd(run: seq<Event>, now: int)
    requires InPass(StateAfter(run)) && !CanLook(StateAfter(run))
    ensures var s := StateAfter(run);
            StateAfter(run + [Event(now, End)]) == s.(queue := s.worker.value.still, worker := None)
  {
    StateAfterSnoc(run, Event(now, End));
  }

  function Readings(clock: nat -> int, n: nat): (times: seq<int>)
    ensures |times| == n && forall i: nat :: i < n ==> times[i] == clock(i)
  {
    seq(n, i requires 0 <= i < n => clock(i))
  }

  function Looks(times: seq<int>, n: nat): seq<Event>
    requires n <= |times|
  {
    if n == 0 then [] else Looks(times, n - 1) + [Event(times[n - 1], Look)]
  }

  /** A pass that looks at its entries at the given times. */
  function PassEvents(times: seq<int>, began: int, ended: int): seq<Event> {
    [Event(began, Begin)] + Looks(times, |times|) + [Event(ended, End)]
  }

  ghost predicate StateMatches(s: State, settings: E.Settings, tracked: set<(string, string)>, pending: seq<E.Pending>,
                               deletions: seq<(string, string)>) {
    && settings == s.settings && tracked == s.tracked && pending == Untag(s.queue) && deletions == s.deletions
    && s.callers == map[]
  }

  /** The fields are what the run says and nobody is at work; while every pass ran at one instant,
      they are also what the run of atomic passes says. */
  ghost predicate FollowsRun(settings: E.Settings, tracked: set<(string, string)>, pending: seq<E.Pending>,
                             deletions: seq<(string, string)>, run: seq<Event>, calls: seq<E.Event>, instant: bool) {
    && StateMatches(StateAfter(run), settings, tracked, pending, deletions) && !InPass(StateAfter(run))
    && (instant ==> settings == SettingsAfter(calls) && pending == QueueAfter(calls))
  }

  lemma TimerFollowsRun(settings: E.Settings, tracked: set<(string, string)>, pending: seq<E.Pending>,
                        deletions: seq<(string, string)>, run: seq<Event>, calls: seq<E.Event>, instant: bool,
                        now: int, owner: string, conversation: string, timer: E.Timer)
    requires FollowsRun(settings, tracked, pending, deletions, run, calls, instant)
    ensures FollowsRun(settings[(owner, conversation) := timer], tracked,
                       if timer == E.Off then E.Uncancelled(pending, owner, conversation) else pending, deletions,
                       run + TimerEvents(now, owner, conversation, timer),
                       calls + [E.Event(now, E.SetTimer(owner, conversation, timer))], instant)
  {
    AfterTimer(run, now, owner, conversation, timer);
    AtomicSetTimer(calls, now, owner, conversation, timer);
  }

  lemma ReadFollowsRun(settings: E.Settings, tracked: set<(string, string)>, pending: seq<E.Pending>,
                       deletions: seq<(string, string)>, run: seq<Event>, calls: seq<E.Event>, instant: bool,
                       now: int, owner: string, message: string, conversation: string)
    requires FollowsRun(settings, tracked, pending, deletions, run, calls, instant)
    ensures FollowsRun(settings, tracked, pending + WantedList(settings, now, owner, message, conversation), deletions,
                       run + ReadEvents(now, owner, message, conversation),
                       calls + [E.Event(now, E.MarkRead(owner, message, conversation))], instant)
  {
    AfterRead(run, now, owner, message, conversation);
    AtomicMarkRead(calls, now, owner, message, conversation);
  }

  class DisappearingMessageService {
    var settings: E.Settings
    var tracked: set<(string, string)>
    var pending: seq<E.Pending>
    var deletions: seq<(string, string)>
    ghost var run: seq<Event>
    /** The same calls with every pass as one event, and whether each pass ran at one instant. */
    ghost var calls: seq<E.Event>
    ghost var instant: bool

    ghost predicate Matches(s: State)
      reads this
    {
      StateMatches(s, settings, tracked, pending, deletions)
    }

    ghost predicate Valid()
      reads this
    {
      FollowsRun(settings, tracked, pending, deletions, run, calls, instant)
    }

    constructor ()
      ensures Valid() && run == [] && calls == [] && instant
    {
      settings, tracked, pending, deletions := map[], {}, [], [];
      run, calls, instant := [], [], true;
    }

    /** Afterwards, with the timer off, no deletion of the conversation is pending for the owner;
        all others still are. */
    method SetTimer(owner: string, conversation: string, timer: E.Timer, ghost now: int)
      requires Valid()
      modifies this`settings, this`pending, this`run, this`calls
      ensures Valid() && run == old(run) + TimerEvents(now, owner, conversation, timer)
      ensures calls == old(calls) + [E.Event(now, E.SetTimer(owner, conversation, timer))]
      ensures settings == old(settings)[(owner, conversation) := timer]
      ensures forall p :: p in pending
                          <==> p in old(pending) && !(timer == E.Off && p.conversation == conversation && p.owner == owner)
    {
      TimerFollowsRun(settings, tracked, pending, deletions, run, calls, instant, now, owner, conversation, timer);
      UncancelledMembers(pending, owner, conversation);
      settings := settings[(owner, conversation) := timer];
      if timer == E.Off {
        pending := E.Uncancelled(pending, owner, conversation);
      }
      run := run + TimerEvents(now, owner, conversation, timer);
      calls := calls + [E.Event(now, E.SetTimer(owner, conversation, timer))];
    }

    /** Tracks the message if and only if the sender's timer is on. */
    method RegisterMessage(message: string, conversation: string, sender: string, ghost now: int)
      returns (registered: bool)
      requires Valid()
      modifies this`tracked, this`run
      ensures Valid() && run == old(run) + [Event(now, Register(sender, message, conversation))]
      ensures registered <==> RegistersMessage(StateAfter(old(run)), run[|run| - 1], sender, message)
      ensures registered ==> (sender, message) in tracked
    {
      StateAfterSnoc(run, Event(now, Register(sender, message, conversation)));
      registered := (sender, conversation) in settings && settings[(sender, conversation)] != E.Off;
      if registered {
        tracked := tracked + {(sender, message)};
      }
      run := run + [Event(now, Register(sender, message, conversation))];
    }

    /** Schedules one deletion if and only if the reader's timer is on. */
    method MarkMessageRead(recipient: string, message: string, conversation: string, now: int)
      requires Valid()
      modifies this`pending, this`run, this`calls
      ensures Valid() && run == old(run) + ReadEvents(now, recipient, message, conversation)
      ensures calls == old(calls) + [E.Event(now, E.MarkRead(recipient, message, conversation))]
      ensures pending == old(pending) + WantedList(settings, now, recipient, message, conversation)
    {
      ReadFollowsRun(settings, tracked, pending, deletions, run, calls, instant, now, recipient, message, conversation);
      var key := (recipient, conversation);
      if key in settings && settings[key] != E.Off {
        pending := pending + [E.Pending(message, conversation, recipient, now + E.Seconds(settings[key]))];
      }
      run := run + ReadEvents(now, recipient, message, conversation);
      calls := calls + [E.Event(now, E.MarkRead(recipient, message, conversation))];
    }

    /** `delete_ephemeral_message`. */
    method DeleteEphemeralMessage(message: string, owner: string)
      modifies this`tracked, this`pending, this`deletions
      ensures deletions == old(deletions) + [(owner, message)]
      ensures tracked == old(tracked) - {(owner, message)}
      ensures pending == E.Undeleted(old(pending), owner, message)
    {
      deletions := deletions + [(owner, message)];
      tracked := tracked - {(owner, message)};
      pending := E.Undeleted(pending, owner, message);
    }

    /** Afterwards nothing is pending or tracked for the message and its owner; all else still is. */
    method ManualDelete(owner: string, message: string, ghost now: int)
      requires Valid()
      modifies this`tracked, this`pending, this`deletions, this`run, this`calls
      ensures Valid() && run == old(run) + [Event(now, Delete(owner, message))]
      ensures calls == old(calls) + [E.Event(now, E.Delete(owner, message))]
      ensures (owner, message) !in tracked && deletions == old(deletions) + [(owner, message)]
      ensures forall p :: p in pending <==> p in old(pending) && !(p.message == message && p.owner == owner)
    {
      StateAfterSnoc(run, Event(now, Delete(owner, message)));
      UntagDeleted(StateAfter(run).queue, owner, message);
      AtomicDelete(calls, now, owner, message);
      UndeletedMembers(pending, owner, message);
      DeleteEphemeralMessage(message, owner);
      run := run + [Event(now, Delete(owner, message))];
      calls := calls + [E.Event(now, E.Delete(owner, message))];
    }

    /** The pass in progress, as the loop below sees it. */
    ghost predicate Passing(snapshot: seq<E.Pending>, done: nat, still: seq<E.Pending>)
      reads this
    {
      && Matches(StateAfter(run)) && InPass(StateAfter(run))
      && var w := StateAfter(run).worker.value;
      && Untag(w.snapshot) == snapshot && w.done == done && Untag(w.still) == still
    }

    /** One round of the loop: looks at the next entry and deletes its message if it is due. */
    method LookAt(now: int, ghost snapshot: seq<E.Pending>, ghost done: nat, deletion: E.Pending, still: seq<E.Pending>)
      returns (still': seq<E.Pending>)
      requires Passing(snapshot, done, still) && done < |snapshot| && deletion == snapshot[done]
      modifies this`tracked, this`pending, this`deletions, this`run
      ensures Passing(snapshot, done + 1, still') && run == old(run) + [Event(now, Look)]
      ensures still' == still + if deletion.deleteAt <= now then [] else [deletion]
      ensures deletions == old(deletions) + if deletion.deleteAt <= now then [(deletion.owner, deletion.message)] else []
    {
      StateAfterSnoc(run, Event(now, Look));
      UntagDeleted(StateAfter(run).queue, deletion.owner, deletion.message);
      if deletion.deleteAt <= now {
        DeleteEphemeralMessage(deletion.message, deletion.owner);
        still' := still;
      } else {
        still' := still + [deletion];
      }
      run := run + [Event(now, Look)];
    }

    /** The loop of a pass; entry `i` is looked at at time `times[i]`. */
    method LookAtAll(snapshot: seq<E.Pending>, times: seq<int>) returns (still: seq<E.Pending>)
      requires Passing(snapshot, 0, []) && |times| == |snapshot|
      modifies this`tracked, this`pending, this`deletions, this`run
      ensures Passing(snapshot, |snapshot|, still) && run == old(run) + Looks(times, |times|)
      ensures still == E.Kept(snapshot, times, |snapshot|)
      ensures deletions == old(deletions) + E.Expired(snapshot, times, |snapshot|)
    {
      still := [];
      for i := 0 to |snapshot|
        invariant Passing(snapshot, i, still) && run == old(run) + Looks(times, i)
        invariant still == E.Kept(snapshot, times, i)
        invariant deletions == old(deletions) + E.Expired(snapshot, times, i)
      {
        still := LookAt(times[i], snapshot, i, snapshot[i], still);
      }
    }

    /** A pass from its snapshot to its write-back. */
    method RunPass(times: seq<int>, ghost began: int, ghost ended: int)
      requires Matches(StateAfter(run)) && !InPass(StateAfter(run)) && |times| == |pending|
      modifies this`tracked, this`pending, this`deletions, this`run
      ensures Matches(StateAfter(run)) && !InPass(StateAfter(run))
      ensures run == old(run) + PassEvents(times, began, ended)
      ensures pending == E.Kept(old(pending), times, |times|)
      ensures deletions == old(deletions) + E.Expired(old(pending), times, |times|)
    {
      AfterBegin(run, began);
      run := run + [Event(began, Begin)];
      var stillPending := LookAtAll(pending, times);
      pending := stillPending;
      AfterEnd(run, ended);
      run := run + [Event(ended, End)];
    }

    /** `process_due_deletions`. At one instant it is an atomic pass. */
    method ProcessDueDeletions(clock: nat -> int)
      requires Valid()
      modifies this
      ensures Valid() && settings == old(settings)
      ensures var q, times := old(pending), Readings(clock, |old(pending)|);
              && run == old(run) + PassEvents(times, clock(0), clock(0))
              && pending == E.Kept(q, times, |q|)
              && deletions == old(deletions) + E.Expired(q, times, |q|)
      ensures instant == (old(instant) && forall i: nat :: clock(i) == clock(0))
      ensures calls == old(calls) + [E.Event(clock(0), E.Pass)]
    {
      ghost var q := pending;
      var times := Readings(clock, |pending|);
      RunPass(times, clock(0), clock(0));
      if forall i: nat :: clock(i) == clock(0) {
        E.KeptAtOnce(q, times, clock(0), |q|);
        assert q[..|q|] == q;
      } else {
        instant := false;
      }
      AtomicPass(calls, clock(0));
      calls := calls + [E.Event(clock(0), E.Pass)];
    }
  }

}
