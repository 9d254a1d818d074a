/** The cached `subscriber_count` of an account against its subscription rows, while service
    calls interleave between storage calls. */
module Subscribers {

  /** Where a caller stands: it changed a row of `account` and has not recomputed the count yet,
      or it holds a subscription it read and will write back. */
  datatype Pending = Owes(account: string) | Holds(subscriber: string, account: string)

  /** `rows` are the keys of `account_subscriptions`, `counts` the cached column per account.
      `failed` are the accounts whose last recompute was lost to a storage error. */
  datatype State = State(rows: set<(string, string)>, counts: map<string, nat>, pending: map<nat, Pending>,
                         failed: set<string>)

  datatype Step =
    | Register(account: string)
    | SubscribePut(caller: nat, subscriber: string, account: string)
    | UnsubscribeDelete(caller: nat, subscriber: string, account: string)
    | Recompute(caller: nat)
    | RecomputeFails(caller: nat)
    | NotifyRead(caller: nat, subscriber: string, account: string)
    | NotifyWrite(caller: nat)

  const INITIAL := State({}, map[], map[], {})

  function RowsOf(s: State, account: string): set<(string, string)> {
    set row | row in s.rows && row.1 == account
  }

  /** One storage call by one caller; a step that is not enabled changes nothing. */
  function Apply(s: State, step: Step): State {
    match step
    case Register(a) => if a in s.counts then s else s.(counts := s.counts[a := 0])
    case SubscribePut(c, u, a) =>
      if a !in s.counts || c in s.pending then s
      else s.(rows := s.rows + {(u, a)}, pending := s.pending[c := Owes(a)])
    case UnsubscribeDelete(c, u, a) =>
      // Only a call that removed a row goes on to recompute.
      if (u, a) !in s.rows || c in s.pending then s
      else s.(rows := s.rows - {(u, a)}, pending := s.pending[c := Owes(a)])
    case Recompute(c) =>
      if c !in s.pending || !s.pending[c].Owes? then s else
      var a := s.pending[c].account;
      s.(counts := if a in s.counts then s.counts[a := |RowsOf(s, a)|] else s.counts,
         pending := s.pending - {c}, failed := s.failed - {a})
    case RecomputeFails(c) =>
      if c !in s.pending || !s.pending[c].Owes? then s
      else s.(pending := s.pending - {c}, failed := s.failed + {s.pending[c].account})
    case NotifyRead(c, u, a) =>
      if (u, a) !in s.rows || c in s.pending then s
      else s.(pending := s.pending[c := Holds(u, a)])
    case NotifyWrite(c) =>
      // `put_subscription` inserts the row again if it has gone meanwhile.
      if c !in s.pending || !s.pending[c].Holds? then s
      else s.(rows := s.rows + {(s.pending[c].subscriber, s.pending[c].account)}, pending := s.pending - {c})
  }

  function Run(steps: seq<Step>): State {
    if steps == [] then INITIAL else Apply(Run(steps[..|steps| - 1]), steps[|steps| - 1])
  }

  // ----- Rows that came back without a recount -----

  /** A write-back that finds its row, of this account, deleted. */
  predicate Resurrects(s: State, step: Step, account: string) {
    && step.NotifyWrite? && step.caller in s.pending && s.pending[step.caller].Holds?
    && s.pending[step.caller].account == account
    && (s.pending[step.caller].subscriber, account) !in s.rows
  }

  /** A recompute of this account that the storage accepts. */
  predicate Recounts(s: State, step: Step, account: string) {
    step.Recompute? && step.caller in s.pending && s.pending[step.caller] == Owes(account)
  }

  function NextExtra(s: State, step: Step, account: string, extra: nat): nat {
    if Recounts(s, step, account) then 0
    else if Resurrects(s, step, account) then extra + 1
    else extra
  }

  /** How often rows of the account were resurrected since its last recompute. */
  function Extra(steps: seq<Step>, account: string): nat {
    if steps == [] then 0 else
    var before := steps[..|steps| - 1];
    NextExtra(Run(before), steps[|steps| - 1], account, Extra(before, account))
  }

  // ----- The cached count against the rows -----

  ghost predicate IsOwed(s: State, account: string) {
    exists c :: c in s.pending && s.pending[c] == Owes(account)
  }

  /** Nobody is about to recompute the account and no recompute was lost since the last one. */
  ghost predicate Quiescent(s: State, account: string) {
    account in s.counts && account !in s.failed && !IsOwed(s, account)
  }

  ghost predicate InSync(s: State, account: string)
    requires account in s.counts
  {
    s.counts[account] == |RowsOf(s, account)|
  }

  /** Rows and callers refer to registered accounts only. */
  ghost predicate Registered(s: State) {
    && (forall row :: row in s.rows ==> row.1 in s.counts)
    && (forall c :: c in s.pending ==> s.pending[c].account in s.counts)
  }

  /** At rest, the rows that the count misses are the resurrected ones. */
  ghost predicate Accounted(s: State, account: string, extra: nat) {
    && (account !in s.counts ==> extra == 0)
    && (Quiescent(s, account) ==> |RowsOf(s, account)| == s.counts[account] + extra)
  }

  /** A debt ends only with a recompute by its own caller, or with that recompute lost. */
  lemma DebtEndsByRecompute(s: State, step: Step, account: string)
    requires IsOwed(s, account) && Quiescent(Apply(s, step), account)
    ensures Recounts(s, step, account)
  {
    var c :| c in s.pending && s.pending[c] == Owes(account);
    assert c !in Apply(s, step).pending;
  }

  /** Whoever changed a row by subscribing or unsubscribing owes a recompute. */
  lemma ChangeIsOwed(s: State, step: Step)
    requires step.SubscribePut? || step.UnsubscribeDelete?
    ensures Apply(s, step) == s || IsOwed(Apply(s, step), step.account)
  {
    var s' := Apply(s, step);
    if s' != s { assert s'.pending[step.caller] == Owes(step.account); }
  }

  lemma RowsAfter(s: State, step: Step, account: string)
    requires Registered(s) && Quiescent(Apply(s, step), account)
    ensures !Resurrects(s, step, account) ==> RowsOf(Apply(s, step), account) == RowsOf(s, account)
    ensures Resurrects(s, step, account) ==> |RowsOf(Apply(s, step), account)| == |RowsOf(s, account)| + 1
  {
    var s' := Apply(s, step);
    if step.SubscribePut? || step.UnsubscribeDelete? {
      ChangeIsOwed(s, step);
    }
    if Resurrects(s, step, account) {
      assert RowsOf(s', account) == RowsOf(s, account) + {(s.pending[step.caller].subscriber, account)};
    }
  }

  lemma KeepsAccounted(s: State, step: Step, account: string, extra: nat)
    requires Registered(s) && Accounted(s, account, extra)
    ensures Accounted(Apply(s, step), account, NextExtra(s, step, account, extra))
  {
    var s' := Apply(s, step);
    if Quiescent(s', account) {
      RowsAfter(s, step, account);
      if IsOwed(s, account) { DebtEndsByRecompute(s, step, account); }
      if account !in s.counts { assert RowsOf(s, account) == {}; }
    }
  }

  lemma KeepsRegistered(s: State, step: Step)
    requires Registered(s)
    ensures Registered(Apply(s, step))
  {}

  lemma {:induction false} RunIsAccounted(steps: seq<Step>, account: string)
    ensures Registered(Run(steps)) && Accounted(Run(steps), account, Extra(steps, account))
  {
    if steps != [] {
      var before, step := steps[..|steps| - 1], steps[|steps| - 1];
      RunIsAccounted(before, account);
      KeepsRegistered(Run(before), step);
      KeepsAccounted(Run(before), step, account, Extra(before, account));
    }
  }

  /** Over every interleaving, at every quiescent point the rows exceed the cached count by the
      resurrections since the last recompute. So the count is right if and only if there was none. */
  lemma QuiescentInSyncIff(steps: seq<Step>, account: string)
    requires Quiescent(Run(steps), account)
    ensures |RowsOf(Run(steps), account)| == Run(steps).counts[account] + Extra(steps, account)
    ensures InSync(Run(steps), account) <==> Extra(steps, account) == 0
  {
    RunIsAccounted(steps, account);
  }

  lemma RunSnoc(steps: seq<Step>, step: Step)
    ensures Run(steps + [step]) == Apply(Run(steps), step)
  {
    assert (steps + [step])[..|steps|] == steps;
  }

  // ----- Which rows there are -----

  /** The step inserts the row, or writes it anew. */
  predicate Adds(s: State, step: Step, u: string, a: string) {
    || (step.SubscribePut? && step.subscriber == u && step.account == a && a in s.counts && step.caller !in s.pending)
    || (step.NotifyWrite? && step.caller in s.pending && s.pending[step.caller] == Holds(u, a))
  }

  /** The step deletes the row. */
  predicate Removes(s: State, step: Step, u: string, a: string) {
    step.UnsubscribeDelete? && step.subscriber == u && step.account == a && step.caller !in s.pending
  }

  /** A step inserts or deletes its own row and no other. */
  lemma OwnRowOnly(s: State, step: Step, u: string, a: string)
    ensures (u, a) in Apply(s, step).rows <==> Adds(s, step, u, a) || ((u, a) in s.rows && !Removes(s, step, u, a))
  {}

  ghost predicate StepAt(steps: seq<Step>, trace: seq<State>, k: nat)
    requires k < |steps| && |trace| == |steps| + 1
  {
    trace[k + 1] == Apply(trace[k], steps[k])
  }

  /** `trace[k]` is the state before step `k`. */
  ghost predicate IsTrace(steps: seq<Step>, trace: seq<State>) {
    && |trace| == |steps| + 1 && trace[0] == INITIAL
    && forall k :: 0 <= k < |steps| ==> StepAt(steps, trace, k)
  }

  lemma {:induction false} TraceIsRun(steps: seq<Step>, trace: seq<State>, n: nat)
    requires IsTrace(steps, trace) && n <= |steps|
    ensures trace[n] == Run(steps[..n])
  {
    if n > 0 {
      TraceIsRun(steps, trace, n - 1);
      assert StepAt(steps, trace, n - 1);
      assert steps[..n] == steps[..n - 1] + [steps[n - 1]];
      RunSnoc(steps[..n - 1], steps[n - 1]);
    }
  }

  /** The user follows the account: before step `n` somebody stored the row and nobody has deleted
      it since. */
  ghost predicate Follows(steps: seq<Step>, trace: seq<State>, n: nat, u: string, a: string)
    requires |trace| == |steps| + 1 && n <= |steps|
  {
    exists k :: 0 <= k < n && Adds(trace[k], steps[k], u, a)
                && forall j :: k < j < n ==> !Removes(trace[j], steps[j], u, a)
  }

  /** Over every interleaving there is a row if and only if the user follows the account. */
  lemma {:induction false} RowIffFollows(steps: seq<Step>, trace: seq<State>, n: nat, u: string, a: string)
    requires IsTrace(steps, trace) && n <= |steps|
    ensures (u, a) in trace[n].rows <==> Follows(steps, trace, n, u, a)
  {
    if n > 0 {
      RowIffFollows(steps, trace, n - 1, u, a);
      assert StepAt(steps, trace, n - 1);
      OwnRowOnly(trace[n - 1], steps[n - 1], u, a);
    }
  }

  lemma {:induction false} PairsCount(users: set<string>, a: string)
    ensures |set u | u in users :: (u, a)| == |users|
  {
    if users != {} {
      var v :| v in users;
      PairsCount(users - {v}, a);
      assert (set u | u in users :: (u, a)) == (set u | u in users - {v} :: (u, a)) + {(v, a)};
    }
  }

  /** At every quiescent point of every interleaving, the cached count is the number of followers
      less the rows that came back without a recount. */
  lemma CountIsFollowers(steps: seq<Step>, trace: seq<State>, a: string, followers: set<string>)
    requires IsTrace(steps, trace) && Quiescent(trace[|steps|], a)
    requires forall u :: u in followers <==> Follows(steps, trace, |steps|, u, a)
    ensures trace[|steps|].counts[a] == |followers| - Extra(steps, a)
  {
    TraceIsRun(steps, trace, |steps|);
    assert steps[..|steps|] == steps;
    QuiescentInSyncIff(steps, a);
    forall row | row in RowsOf(Run(steps), a) ensures row.0 in followers {
      RowIffFollows(steps, trace, |steps|, row.0, a);
    }
    forall u | u in followers ensures (u, a) in RowsOf(Run(steps), a) {
      RowIffFollows(steps, trace, |steps|, u, a);
    }
    assert RowsOf(Run(steps), a) == set u | u in followers :: (u, a);
    PairsCount(followers, a);
  }

  /** Step `r` is where the caller's debt or copy comes from. */
  ghost predicate Causes(s: State, step: Step, c: nat, p: Pending) {
    match p
    case Owes(a) => (step.SubscribePut? || step.UnsubscribeDelete?) && step.caller == c && step.account == a
    case Holds(u, a) => step == NotifyRead(c, u, a) && (u, a) in s.rows
  }

  /** Who owes a recompute has changed a row of the account; who will write a row back has read it
      while it was there. */
  lemma {:induction false} PendingHasCause(steps: seq<Step>, trace: seq<State>, n: nat, c: nat)
    requires IsTrace(steps, trace) && n <= |steps| && c in trace[n].pending
    ensures exists r :: 0 <= r < n && Causes(trace[r], steps[r], c, trace[n].pending[c])
  {
    if n > 0 {
      assert StepAt(steps, trace, n - 1);
      if c in trace[n - 1].pending {
        PendingHasCause(steps, trace, n - 1, c);
      } else {
        assert Causes(trace[n - 1], steps[n - 1], c, trace[n].pending[c]);
      }
    }
  }

  // ----- A wrong count -----

  /** One follower, counted, whose subscription a second caller has read. */
  lemma RaceBegins(u: string, a: string) returns (steps: seq<Step>)
    ensures Run(steps) == State({(u, a)}, map[a := 1], map[1 := Holds(u, a)], {})
  {
    steps := [];
    RunSnoc(steps, Register(a));
    steps := steps + [Register(a)];
    RunSnoc(steps, SubscribePut(0, u, a));
    steps := steps + [SubscribePut(0, u, a)];
    assert Run(steps) == State({(u, a)}, map[a := 0], map[0 := Owes(a)], {});
    assert RowsOf(Run(steps), a) == {(u, a)};
    RunSnoc(steps, Recompute(0));
    steps := steps + [Recompute(0)];
    assert Run(steps) == State({(u, a)}, map[a := 1], map[], {});
    RunSnoc(steps, NotifyRead(1, u, a));
    steps := steps + [NotifyRead(1, u, a)];
  }

  /** A notify change racing an unsubscribe leaves, with nobody at work and no storage error, one
      row and a count of zero. */
  lemma NotifyRaceLeavesWrongCount(u: string, a: string) returns (steps: seq<Step>)
    ensures Run(steps) == State({(u, a)}, map[a := 0], map[], {}) && !InSync(Run(steps), a)
  {
    steps := RaceBegins(u, a);
    RunSnoc(steps, UnsubscribeDelete(2, u, a));
    steps := steps + [UnsubscribeDelete(2, u, a)];
    assert Run(steps) == State({}, map[a := 1], map[1 := Holds(u, a), 2 := Owes(a)], {});
    assert RowsOf(Run(steps), a) == {};
    RunSnoc(steps, Recompute(2));
    steps := steps + [Recompute(2)];
    assert Run(steps) == State({}, map[a := 0], map[1 := Holds(u, a)], {});
    RunSnoc(steps, NotifyWrite(1));
    steps := steps + [NotifyWrite(1)];
    assert RowsOf(Run(steps), a) == {(u, a)};
  }

}
