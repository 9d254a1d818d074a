/** Group operations one hub call at a time. An operation reads the members, decides, and then makes
    its writes in separate calls; other operations may come in between, so a write may rest on a
    reading that is no longer true. */
module GroupHubCalls {
  import opened Common
  import G = GroupRoles

  datatype Write =
    | Insert(user: string)
    | Put(user: string, role: G.Role)
    | Remove(user: string)
    | SetUntil(user: string, until: Option<int>)
    | Sweep(now: int)

  /** An operation that passed its role check at step `step` and has to read again. */
  datatype Passed = Passed(step: nat, now: int, op: G.Op)

  /** What a caller that read members in which its operation is allowed goes on to write. Its first
      reading was at step `first`, its last at step `read`, its latest call at step `since`. */
  datatype Plan = Plan(first: nat, read: nat, since: nat, op: G.Op, writes: seq<Write>)

  /** `checks` holds the callers between their two readings, `plans` those that have read and not
      yet made all their writes. */
  datatype State = State(group: G.Group, checks: map<nat, Passed>, plans: map<nat, Plan>)

  datatype Step =
    | Check(caller: nat, now: int, op: G.Op)
    | Read(caller: nat, now: int, op: G.Op)
    | Call(caller: nat)
    | Fail(caller: nat)

  /** Granting and revoking read the members once for the role and once more for the rest. */
  predicate ReadsTwice(op: G.Op) { op.Grant? || op.Revoke? }

  /** What the last reading must show. */
  predicate Allowed(g: G.Group, now: int, op: G.Op) {
    match op
    case Grant(a, t, s) => a in g && !G.HasActiveGrant(g[a], now) && a != t && t != "" && s > 0 && t in g
    case Revoke(a, t) => a in g && !G.HasActiveGrant(g[a], now) && t in g
    case _ => G.Apply(g, now, op).Ok?
  }

  /** The two readings together are what the operation checks at one instant. */
  lemma AllowedIff(g: G.Group, now: int, op: G.Op)
    ensures G.Apply(g, now, op).Ok?
            <==> Allowed(g, now, op) && (ReadsTwice(op) ==> G.RoleSuffices(g, now, op.actor, G.Admin))
  {}

  /** The writes of an operation that is allowed on the members read; none if it is not. */
  function Writes(g: G.Group, now: int, op: G.Op): seq<Write> {
    if !Allowed(g, now, op) then [] else
    match op
    case Join(u) => [Insert(u)]
    case AddMember(_, t) => [Insert(t)]
    case RemoveMember(_, t) => [Remove(t)]
    case SetRole(_, t, r) => [Put(t, r)]
    case Transfer(a, n) => [Put(n, G.Owner), Put(a, G.Admin)]
    case Leave(u) => [Remove(u)]
    case Grant(_, t, s) => [SetUntil(t, Some(now + G.MinInt(s, G.MAX_TEMP_ADMIN_DURATION_SECS)))]
    case Revoke(_, t) => [SetUntil(t, None)]
    case Cleanup => [Sweep(now)]
  }

  /** The hub reports a missing member, and the operation gives up. */
  predicate Fails(g: G.Group, w: Write) {
    (w.Put? || w.SetUntil?) && w.user !in g
  }

  function Effect(g: G.Group, w: Write): G.Group
    requires !Fails(g, w)
  {
    match w
    case Insert(u) => G.AddRow(g, u)
    case Put(u, r) => G.PutRole(g, u, r)
    case Remove(u) => g - {u}
    case SetUntil(u, until) => g[u := g[u].(tempAdminUntil := until)]
    case Sweep(now) => G.Next(g, now, G.Cleanup)
  }

  /** The step is a write, and the hub carries it out. */
  predicate Acts(s: State, step: Step) {
    && step.Call? && step.caller in s.plans && s.plans[step.caller].writes != []
    && !Fails(s.group, s.plans[step.caller].writes[0])
  }

  /** A grant or a revocation reads again after its role check; the others read at once. */
  predicate MayRead(s: State, c: nat, op: G.Op) {
    c !in s.plans && if ReadsTwice(op) then c in s.checks && s.checks[c].op == op else c !in s.checks
  }

  /** Step number `n`. A step that is not enabled changes nothing; a hub call that fails ends its
      operation. */
  function Next(s: State, n: nat, step: Step): State {
    match step
    case Check(c, now, op) =>
      if c in s.plans || c in s.checks || !ReadsTwice(op) || !G.RoleSuffices(s.group, now, op.actor, G.Admin) then s
      else s.(checks := s.checks[c := Passed(n, now, op)])
    case Read(c, now, op) =>
      if !MayRead(s, c, op) then s else
      var first, writes := if ReadsTwice(op) then s.checks[c].step else n, Writes(s.group, now, op);
      s.(checks := s.checks - {c},
         plans := if writes == [] then s.plans else s.plans[c := Plan(first, n, n, op, writes)])
    case Call(c) =>
      if !Acts(s, step) then s.(plans := s.plans - {c}) else
      var p := s.plans[c];
      s.(group := Effect(s.group, p.writes[0]),
         plans := if |p.writes| == 1 then s.plans - {c}
                  else s.plans[c := p.(since := n, writes := p.writes[1..])])
    case Fail(c) => s.(checks := s.checks - {c}, plans := s.plans - {c})
  }

  function WriteOf(s: State, step: Step): Write
    requires Acts(s, step)
  {
    s.plans[step.caller].writes[0]
  }

  function Initial(creator: string): State { State(map[creator := G.Membership(G.Owner, None)], map[], map[]) }

  /** `trace[k]` is the state before step `k`. */
  ghost predicate StepAt(run: seq<Step>, trace: seq<State>, k: nat)
    requires k < |run| && |trace| == |run| + 1
  {
    trace[k + 1] == Next(trace[k], k, run[k])
  }

  ghost predicate IsTrace(creator: string, run: seq<Step>, trace: seq<State>) {
    && |trace| == |run| + 1 && trace[0] == Initial(creator)
    && forall k :: 0 <= k < |run| ==> StepAt(run, trace, k)
  }

  // ----- One write -----

  /** The write lowers or removes the only owner. */
  ghost predicate TakesSoleOwner(g: G.Group, w: Write) {
    (w.Remove? || (w.Put? && w.role != G.Owner)) && G.IsSoleOwner(g, w.user)
  }

  /** The write makes somebody owner. */
  predicate MakesOwner(w: Write) { w.Put? && w.role == G.Owner }

  lemma OwnerNotTaken(g: G.Group, w: Write) returns (u: string)
    requires G.HasOwner(g) && !TakesSoleOwner(g, w)
    ensures u in g && g[u].role == G.Owner && ((w.Remove? || (w.Put? && w.role != G.Owner)) ==> u != w.user)
  {
    u :| u in g && g[u].role == G.Owner;
    if (w.Remove? || w.Put?) && u == w.user && !G.IsSoleOwner(g, u) {
      u :| u in g && g[u].role == G.Owner && u != w.user;
    }
  }

  /** After a write there is an owner if and only if the write made one, or there was one and the
      write did not take the only one. */
  lemma OwnerAfterWriteIff(g: G.Group, w: Write)
    requires !Fails(g, w)
    ensures G.HasOwner(Effect(g, w)) <==> MakesOwner(w) || (G.HasOwner(g) && !TakesSoleOwner(g, w))
  {
    var g' := Effect(g, w);
    if MakesOwner(w) {
      assert g'[w.user].role == G.Owner;
    } else if G.HasOwner(g) {
      if TakesSoleOwner(g, w) {
        assert forall u :: u in g' ==> g'[u].role != G.Owner;
      } else {
        var u := OwnerNotTaken(g, w);
        assert g'[u].role == G.Owner;
      }
    } else {
      assert forall u :: u in g ==> g[u].role != G.Owner;
      assert forall u :: u in g' ==> g'[u].role != G.Owner;
    }
  }

  // ----- Whole runs -----

  ghost predicate LosesOwner(s: State, step: Step) {
    Acts(s, step) && TakesSoleOwner(s.group, WriteOf(s, step))
  }

  ghost predicate GainsOwner(s: State, step: Step) {
    Acts(s, step) && MakesOwner(WriteOf(s, step))
  }

  lemma OwnerStepIff(s: State, n: nat, step: Step)
    ensures G.HasOwner(Next(s, n, step).group)
            <==> GainsOwner(s, step) || (G.HasOwner(s.group) && !LosesOwner(s, step))
  {
    if Acts(s, step) { OwnerAfterWriteIff(s.group, WriteOf(s, step)); }
  }

  /** Over every interleaving of hub calls, a state has an owner if and only if every write that
      lowered or removed the only owner was followed by a write that made one. */
  lemma {:induction false} OwnerIff(creator: string, run: seq<Step>, trace: seq<State>, n: nat)
    requires IsTrace(creator, run, trace) && n <= |run|
    ensures G.HasOwner(trace[n].group)
            <==> forall i :: 0 <= i < n && LosesOwner(trace[i], run[i]) ==>
                               exists j :: i < j < n && GainsOwner(trace[j], run[j])
  {
    if n == 0 {
      assert trace[0].group[creator].role == G.Owner;
    } else {
      OwnerIff(creator, run, trace, n - 1);
      assert StepAt(run, trace, n - 1);
      OwnerStepIff(trace[n - 1], n - 1, run[n - 1]);
    }
  }

  // ----- Only stale writes and self-transfers lose the owner -----

  predicate IsOwner(g: G.Group, u: string) { u in g && g[u].role == G.Owner }

  /** The step makes `u` owner. */
  predicate Promotes(s: State, step: Step, u: string) {
    Acts(s, step) && WriteOf(s, step) == Put(u, G.Owner)
  }

  /** The step takes ownership or membership from `u`. */
  predicate Demotes(s: State, step: Step, u: string) {
    && Acts(s, step) && var w := WriteOf(s, step);
    (w.Remove? || (w.Put? && w.role != G.Owner)) && w.user == u
  }

  lemma OwnershipStep(s: State, n: nat, step: Step, u: string)
    ensures !IsOwner(s.group, u) && IsOwner(Next(s, n, step).group, u) ==> Promotes(s, step, u)
    ensures IsOwner(s.group, u) && !IsOwner(Next(s, n, step).group, u) ==> Demotes(s, step, u)
  {}

  lemma {:induction false} PromotedBetween(creator: string, run: seq<Step>, trace: seq<State>, u: string, i: nat, n: nat)
    returns (j: nat)
    requires IsTrace(creator, run, trace) && i <= n <= |run|
    requires !IsOwner(trace[i].group, u) && IsOwner(trace[n].group, u)
    ensures i <= j < n && Promotes(trace[j], run[j], u)
    decreases n
  {
    assert StepAt(run, trace, n - 1);
    OwnershipStep(trace[n - 1], n - 1, run[n - 1], u);
    if IsOwner(trace[n - 1].group, u) {
      j := PromotedBetween(creator, run, trace, u, i, n - 1);
    } else {
      j := n - 1;
    }
  }

  lemma {:induction false} DemotedBetween(creator: string, run: seq<Step>, trace: seq<State>, u: string, i: nat, n: nat)
    returns (j: nat)
    requires IsTrace(creator, run, trace) && i <= n <= |run|
    requires IsOwner(trace[i].group, u) && !IsOwner(trace[n].group, u)
    ensures i <= j < n && Demotes(trace[j], run[j], u)
    decreases n
  {
    assert StepAt(run, trace, n - 1);
    OwnershipStep(trace[n - 1], n - 1, run[n - 1], u);
    if !IsOwner(trace[n - 1].group, u) {
      j := DemotedBetween(creator, run, trace, u, i, n - 1);
    } else {
      j := n - 1;
    }
  }

  /** Step `k` is the role check of the caller's operation, and the role suffices there. */
  ghost predicate CheckedAt(run: seq<Step>, trace: seq<State>, k: nat, c: nat, op: G.Op)
    requires |trace| == |run| + 1 && k < |run|
  {
    && ReadsTwice(op) && run[k].Check? && run[k].caller == c && run[k].op == op
    && G.RoleSuffices(trace[k].group, run[k].now, op.actor, G.Admin)
  }

  /** Step `k` is the last reading of the caller's operation. */
  predicate ReadAt(run: seq<Step>, k: nat, c: nat, op: G.Op)
    requires k < |run|
  {
    run[k].Read? && run[k].caller == c && run[k].op == op
  }

  /** A plan has all its writes ahead of it, or is a transfer that has made its promotion. */
  ghost predicate PlanInv(run: seq<Step>, trace: seq<State>, n: nat, c: nat, p: Plan)
    requires |trace| == |run| + 1 && n <= |run|
  {
    && p.first <= p.read <= p.since < n && ReadAt(run, p.read, c, p.op)
    && (ReadsTwice(p.op) ==> CheckedAt(run, trace, p.first, c, p.op))
    && (forall k :: p.since < k < n ==> run[k] != Call(c))
    && if p.since == p.read
       then p.writes == Writes(trace[p.read].group, run[p.read].now, p.op) && p.writes != []
       else p.op.Transfer? && p.writes == [Put(p.op.actor, G.Admin)]
            && G.MayTransfer(trace[p.read].group, p.op.actor, p.op.newOwner)
            && IsOwner(trace[p.since + 1].group, p.op.newOwner)
  }

  ghost predicate CheckInv(run: seq<Step>, trace: seq<State>, n: nat, c: nat, p: Passed)
    requires |trace| == |run| + 1 && n <= |run|
  {
    p.step < n && CheckedAt(run, trace, p.step, c, p.op) && run[p.step].now == p.now
  }

  ghost predicate PlansInv(run: seq<Step>, trace: seq<State>, n: nat)
    requires |trace| == |run| + 1 && n <= |run|
  {
    && (forall c :: c in trace[n].checks ==> CheckInv(run, trace, n, c, trace[n].checks[c]))
    && (forall c :: c in trace[n].plans ==> PlanInv(run, trace, n, c, trace[n].plans[c]))
  }

  lemma WritesAtMostTwo(g: G.Group, now: int, op: G.Op)
    ensures |Writes(g, now, op)| <= 1
            || (op.Transfer? && Writes(g, now, op) == [Put(op.newOwner, G.Owner), Put(op.actor, G.Admin)])
    ensures op.Transfer? && Writes(g, now, op) != [] ==> G.MayTransfer(g, op.actor, op.newOwner)
  {}

  lemma CallKeepsPlanInv(run: seq<Step>, trace: seq<State>, n: nat, c: nat, p: Plan)
    requires |trace| == |run| + 1 && n < |run| && StepAt(run, trace, n) && run[n] == Call(c)
    requires c in trace[n].plans && trace[n].plans[c] == p && PlanInv(run, trace, n, c, p)
    requires c in trace[n + 1].plans
    ensures PlanInv(run, trace, n + 1, c, trace[n + 1].plans[c])
  {
    WritesAtMostTwo(trace[p.read].group, run[p.read].now, p.op);
  }

  lemma PlanInvLater(run: seq<Step>, trace: seq<State>, n: nat, c: nat, p: Plan)
    requires |trace| == |run| + 1 && n < |run| && PlanInv(run, trace, n, c, p) && run[n] != Call(c)
    ensures PlanInv(run, trace, n + 1, c, p)
  {}

  lemma ReadMakesPlanInv(run: seq<Step>, trace: seq<State>, n: nat, c: nat)
    requires |trace| == |run| + 1 && n < |run| && StepAt(run, trace, n) && PlansInv(run, trace, n)
    requires c !in trace[n].plans && c in trace[n + 1].plans
    ensures PlanInv(run, trace, n + 1, c, trace[n + 1].plans[c])
  {
    assert run[n].Read? && run[n].caller == c && MayRead(trace[n], c, run[n].op);
    if ReadsTwice(run[n].op) { assert CheckInv(run, trace, n, c, trace[n].checks[c]); }
  }

  lemma KeepsPlanInv(run: seq<Step>, trace: seq<State>, n: nat, c: nat)
    requires |trace| == |run| + 1 && n < |run| && StepAt(run, trace, n) && PlansInv(run, trace, n)
    requires c in trace[n + 1].plans
    ensures PlanInv(run, trace, n + 1, c, trace[n + 1].plans[c])
  {
    if c !in trace[n].plans {
      ReadMakesPlanInv(run, trace, n, c);
    } else {
      var p := trace[n].plans[c];
      assert PlanInv(run, trace, n, c, p);
      if run[n] == Call(c) {
        CallKeepsPlanInv(run, trace, n, c, p);
      } else {
        assert trace[n + 1].plans[c] == p;
        PlanInvLater(run, trace, n, c, p);
      }
    }
  }

  lemma KeepsCheckInv(run: seq<Step>, trace: seq<State>, n: nat, c: nat)
    requires |trace| == |run| + 1 && n < |run| && StepAt(run, trace, n) && PlansInv(run, trace, n)
    requires c in trace[n + 1].checks
    ensures CheckInv(run, trace, n + 1, c, trace[n + 1].checks[c])
  {
    if c in trace[n].checks { assert CheckInv(run, trace, n, c, trace[n].checks[c]); }
  }

  lemma {:induction false} PlansInvAlways(creator: string, run: seq<Step>, trace: seq<State>, n: nat)
    requires IsTrace(creator, run, trace) && n <= |run|
    ensures PlansInv(run, trace, n)
  {
    if n > 0 {
      PlansInvAlways(creator, run, trace, n - 1);
      assert StepAt(run, trace, n - 1);
      forall c | c in trace[n].checks ensures CheckInv(run, trace, n, c, trace[n].checks[c]) {
        KeepsCheckInv(run, trace, n - 1, c);
      }
      forall c | c in trace[n].plans ensures PlanInv(run, trace, n, c, trace[n].plans[c]) {
        KeepsPlanInv(run, trace, n - 1, c);
      }
    }
  }

  /** Who the operation wants to lower or remove. */
  function Subject(op: G.Op): string
    requires op.RemoveMember? || op.SetRole? || op.Leave?
  {
    if op.Leave? then op.user else op.target
  }

  /** Between the reading and step `n` somebody else made the operation's subject owner, or, after
      the promotion of a transfer, took ownership from its new owner. */
  ghost predicate Overtaken(run: seq<Step>, trace: seq<State>, n: nat, c: nat, p: Plan)
    requires |trace| == |run| + 1 && n <= |run|
  {
    exists j :: p.since < j < n && run[j] != Call(c)
      && if p.op.Transfer? then Demotes(trace[j], run[j], p.op.newOwner)
         else (p.op.RemoveMember? || p.op.SetRole? || p.op.Leave?) && Promotes(trace[j], run[j], Subject(p.op))
  }

  lemma SubjectIsNoOwner(g: G.Group, now: int, op: G.Op)
    requires (op.RemoveMember? || op.SetRole? || op.Leave?) && Writes(g, now, op) != []
    ensures !IsOwner(g, Subject(op))
    ensures Writes(g, now, op) == [if op.SetRole? then Put(Subject(op), op.newRole) else Remove(Subject(op))]
  {}

  /** In every interleaving, a write loses the owner only as the demotion of a sole owner's transfer
      to itself, or when another caller overtook the operation after its reading. */
  lemma LossIsStale(creator: string, run: seq<Step>, trace: seq<State>, n: nat)
    requires IsTrace(creator, run, trace) && n < |run| && LosesOwner(trace[n], run[n])
    ensures var c := run[n].caller; var p := trace[n].plans[c];
            || (p.op.Transfer? && p.op.actor == p.op.newOwner && G.IsSoleOwner(trace[n].group, p.op.actor))
            || Overtaken(run, trace, n, c, p)
  {
    PlansInvAlways(creator, run, trace, n);
    var c := run[n].caller;
    var p := trace[n].plans[c];
    assert PlanInv(run, trace, n, c, p);
    if p.op.RemoveMember? || p.op.SetRole? || p.op.Leave? {
      SubjectIsNoOwner(trace[p.read].group, run[p.read].now, p.op);
      var j := PromotedBetween(creator, run, trace, Subject(p.op), p.read, n);
      assert j != p.read;
    } else if p.op.Transfer? && p.since > p.read && p.op.actor != p.op.newOwner {
      var j := DemotedBetween(creator, run, trace, p.op.newOwner, p.since + 1, n);
    }
  }

  // ----- Where permanent rank comes from -----

  /** Step `i` writes the role, for an operation whose actor was an owner at its reading. */
  ghost predicate GivesRank(run: seq<Step>, trace: seq<State>, i: nat, u: string, role: G.Role)
    requires |trace| == |run| + 1 && i < |run|
  {
    && Acts(trace[i], run[i]) && WriteOf(trace[i], run[i]) == Put(u, role)
    && var c := run[i].caller; var p := trace[i].plans[c];
    && p.read < i && ReadAt(run, p.read, c, p.op) && (p.op.SetRole? || p.op.Transfer?)
    && IsOwner(trace[p.read].group, p.op.actor)
  }

  lemma RankNeedsOwner(g: G.Group, now: int, op: G.Op)
    requires Writes(g, now, op) != [] && Writes(g, now, op)[0].Put? && Writes(g, now, op)[0].role != G.Member
    ensures (op.SetRole? || op.Transfer?) && IsOwner(g, op.actor)
  {}

  lemma RankWriteFromOwner(creator: string, run: seq<Step>, trace: seq<State>, i: nat, u: string, role: G.Role)
    requires IsTrace(creator, run, trace) && i < |run| && role != G.Member
    requires Acts(trace[i], run[i]) && WriteOf(trace[i], run[i]) == Put(u, role)
    ensures GivesRank(run, trace, i, u, role)
  {
    PlansInvAlways(creator, run, trace, i);
    var p := trace[i].plans[run[i].caller];
    assert PlanInv(run, trace, i, run[i].caller, p);
    if p.since == p.read { RankNeedsOwner(trace[p.read].group, run[p.read].now, p.op); }
  }

  lemma RankStep(s: State, n: nat, step: Step, u: string)
    requires u in Next(s, n, step).group && Next(s, n, step).group[u].role != G.Member
    requires u in s.group ==> s.group[u].role != Next(s, n, step).group[u].role
    ensures Acts(s, step) && WriteOf(s, step) == Put(u, Next(s, n, step).group[u].role)
  {}

  /** Over every interleaving of hub calls, a permanent admin or owner is the creator, never demoted
      since, or got exactly that role from a write whose actor was an owner at its reading. */
  lemma {:induction false} PermanentRankFromReading(creator: string, run: seq<Step>, trace: seq<State>, n: nat, u: string)
    requires IsTrace(creator, run, trace) && n <= |run|
    requires u in trace[n].group && trace[n].group[u].role != G.Member
    ensures var role := trace[n].group[u].role;
            || (exists i :: 0 <= i < n && GivesRank(run, trace, i, u, role))
            || (u == creator && role == G.Owner && forall i :: 0 <= i <= n ==> IsOwner(trace[i].group, u))
  {
    if n > 0 {
      assert StepAt(run, trace, n - 1);
      var g, role := trace[n - 1].group, trace[n].group[u].role;
      if u in g && g[u].role == role {
        PermanentRankFromReading(creator, run, trace, n - 1, u);
      } else {
        RankStep(trace[n - 1], n - 1, run[n - 1], u);
        RankWriteFromOwner(creator, run, trace, n - 1, u, role);
      }
    }
  }

  // ----- Where temporary rank comes from -----

  /** Step `i` writes the grant, for an operation on somebody else whose actor's role sufficed at its
      first reading and who held no active grant at its second, for at most seven days from there. */
  ghost predicate GivesGrant(run: seq<Step>, trace: seq<State>, i: nat, u: string, until: int)
    requires |trace| == |run| + 1 && i < |run|
  {
    && Acts(trace[i], run[i]) && WriteOf(trace[i], run[i]) == SetUntil(u, Some(until))
    && var c := run[i].caller; var p := trace[i].plans[c];
    && p.op.Grant? && p.op.target == u && p.op.actor != u
    && p.first <= p.read < i && CheckedAt(run, trace, p.first, c, p.op) && ReadAt(run, p.read, c, p.op)
    && p.op.actor in trace[p.read].group && !G.HasActiveGrant(trace[p.read].group[p.op.actor], run[p.read].now)
    && run[p.read].now < until <= run[p.read].now + G.MAX_TEMP_ADMIN_DURATION_SECS
  }

  lemma GrantNeedsReading(g: G.Group, now: int, op: G.Op, u: string, until: int)
    requires Writes(g, now, op) != [] && Writes(g, now, op)[0] == SetUntil(u, Some(until))
    ensures op.Grant? && op.target == u && op.actor != u && op.actor in g && !G.HasActiveGrant(g[op.actor], now)
    ensures now < until <= now + G.MAX_TEMP_ADMIN_DURATION_SECS
  {}

  lemma GrantWriteHasReadings(creator: string, run: seq<Step>, trace: seq<State>, i: nat, u: string, until: int)
    requires IsTrace(creator, run, trace) && i < |run|
    requires Acts(trace[i], run[i]) && WriteOf(trace[i], run[i]) == SetUntil(u, Some(until))
    ensures GivesGrant(run, trace, i, u, until)
  {
    PlansInvAlways(creator, run, trace, i);
    var p := trace[i].plans[run[i].caller];
    assert PlanInv(run, trace, i, run[i].caller, p);
    GrantNeedsReading(trace[p.read].group, run[p.read].now, p.op, u, until);
  }

  lemma UntilStep(s: State, n: nat, step: Step, u: string)
    requires u in Next(s, n, step).group && Next(s, n, step).group[u].tempAdminUntil.Some?
    requires u in s.group ==> s.group[u].tempAdminUntil != Next(s, n, step).group[u].tempAdminUntil
    ensures Acts(s, step) && WriteOf(s, step) == SetUntil(u, Next(s, n, step).group[u].tempAdminUntil)
  {}

  /** Over every interleaving of hub calls, each temporary grant has such a source. */
  lemma {:induction false} GrantsHaveReadings(creator: string, run: seq<Step>, trace: seq<State>, n: nat, u: string)
    requires IsTrace(creator, run, trace) && n <= |run|
    requires u in trace[n].group && trace[n].group[u].tempAdminUntil.Some?
    ensures exists i :: 0 <= i < n && GivesGrant(run, trace, i, u, trace[n].group[u].tempAdminUntil.value)
  {
    if n > 0 {
      assert StepAt(run, trace, n - 1);
      var g, until := trace[n - 1].group, trace[n].group[u].tempAdminUntil;
      if u in g && g[u].tempAdminUntil == until {
        GrantsHaveReadings(creator, run, trace, n - 1, u);
      } else {
        UntilStep(trace[n - 1], n - 1, run[n - 1], u);
        GrantWriteHasReadings(creator, run, trace, n - 1, u, until.value);
      }
    }
  }

  /** Over every interleaving, once a revocation has made its write, no grant is active on its target,
      whose role and whose fellow members are as before. */
  lemma RevocationEndsGrant(creator: string, run: seq<Step>, trace: seq<State>, i: nat, later: int)
    requires IsTrace(creator, run, trace) && i < |run| && Acts(trace[i], run[i])
    requires trace[i].plans[run[i].caller].op.Revoke?
    ensures var t := trace[i].plans[run[i].caller].op.target; var g, g' := trace[i].group, trace[i + 1].group;
            && G.SameExcept(g, g', t) && t in g && t in g' && g'[t].role == g[t].role
            && !G.HasActiveGrant(g'[t], later) && G.EffectiveRank(g'[t], later) == G.Rank(g[t].role)
  {
    PlansInvAlways(creator, run, trace, i);
    var p := trace[i].plans[run[i].caller];
    assert PlanInv(run, trace, i, run[i].caller, p) && StepAt(run, trace, i);
    assert p.writes == [SetUntil(p.op.target, None)];
  }

  /** Whoever grants is a permanent admin or owner at the first reading, except when a grant of
      their own was active there and over by the second. */
  lemma GranterIsPermanentUnless(run: seq<Step>, trace: seq<State>, i: nat, u: string, until: int)
    requires |trace| == |run| + 1 && i < |run| && GivesGrant(run, trace, i, u, until)
    ensures var p := trace[i].plans[run[i].caller];
            var first, last := trace[p.first].group[p.op.actor], trace[p.read].group[p.op.actor];
            G.Rank(first.role) >= G.Rank(G.Admin)
            || (G.HasActiveGrant(first, run[p.first].now) && !G.HasActiveGrant(last, run[p.read].now))
  {}

  /** Seven days after the last reading of a grant, everybody is back to their permanent rank,
      however the hub calls interleave. */
  lemma GrantsWearOffAnyway(creator: string, run: seq<Step>, trace: seq<State>, now: int, u: string)
    requires IsTrace(creator, run, trace) && u in trace[|run|].group
    requires forall i :: 0 <= i < |run| && run[i].Read? && run[i].op.Grant?
                         ==> run[i].now + G.MAX_TEMP_ADMIN_DURATION_SECS <= now
    ensures var m := trace[|run|].group[u]; G.EffectiveRank(m, now) == G.Rank(m.role)
  {
    var m := trace[|run|].group[u];
    if m.tempAdminUntil.Some? {
      GrantsHaveReadings(creator, run, trace, |run|, u);
    }
  }

  // ----- Operations that do not overlap happen at one instant each -----

  /** What is left of a plan, carried out without interruption. */
  function Play(g: G.Group, writes: seq<Write>): G.Group
    decreases |writes|
  {
    if writes == [] || Fails(g, writes[0]) then g else Play(Effect(g, writes[0]), writes[1..])
  }

  lemma AloneIsAtomic(g: G.Group, now: int, op: G.Op)
    requires ReadsTwice(op) ==> G.RoleSuffices(g, now, op.actor, G.Admin)
    ensures Play(g, Writes(g, now, op)) == G.Next(g, now, op)
  {
    AllowedIff(g, now, op);
    var writes := Writes(g, now, op);
    if op.Transfer? && writes != [] {
      var g' := Effect(g, writes[0]);
      assert writes[1..][1..] == [] && Play(g', writes[1..]) == Effect(g', writes[1]);
    } else if writes != [] {
      assert writes[1..] == [] && Play(g, writes) == Effect(g, writes[0]);
    }
  }

  /** The step begins an operation. */
  predicate Begins(step: Step) {
    (step.Check? && ReadsTwice(step.op)) || (step.Read? && !ReadsTwice(step.op))
  }

  ghost predicate AtRest(s: State) { s.checks == map[] && s.plans == map[] }

  ghost predicate Orderly(s: State, step: Step) {
    && !step.Fail? && (Begins(step) ==> AtRest(s))
    && (step.Read? && step.caller in s.checks ==> s.checks[step.caller].now == step.now)
  }

  /** Operations begin only when nobody else is at work, no hub call fails, and the clock stands
      still between the two readings of one operation. */
  ghost predicate NonOverlapping(run: seq<Step>, trace: seq<State>)
    requires |trace| == |run| + 1
  {
    forall k :: 0 <= k < |run| ==> Orderly(trace[k], run[k])
  }

  /** The operations begun before step `n`, in order. */
  function OpsOf(run: seq<Step>, n: nat): seq<G.Event>
    requires n <= |run|
  {
    if n == 0 then []
    else OpsOf(run, n - 1) + if Begins(run[n - 1]) then [G.Event(run[n - 1].now, run[n - 1].op)] else []
  }

  function AtomicState(creator: string, ops: seq<G.Event>): G.Group { G.StateAt(creator, ops, |ops|) }

  lemma {:induction false} AtomicPrefix(creator: string, ops: seq<G.Event>, e: G.Event, n: nat)
    requires n <= |ops|
    ensures G.StateAt(creator, ops + [e], n) == G.StateAt(creator, ops, n)
  {
    if n > 0 { AtomicPrefix(creator, ops, e, n - 1); }
  }

  lemma AtomicSnoc(creator: string, ops: seq<G.Event>, e: G.Event)
    ensures AtomicState(creator, ops + [e]) == G.Next(AtomicState(creator, ops), e.now, e.op)
  {
    AtomicPrefix(creator, ops, e, |ops|);
  }

  /** One caller has passed its role check and, reading again at that time, will make the group
      `target`. */
  ghost predicate CheckHeadedFor(s: State, target: G.Group) {
    s.plans == map[]
    && exists c :: c in s.checks && s.checks.Keys == {c}
                   && Play(s.group, Writes(s.group, s.checks[c].now, s.checks[c].op)) == target
  }

  /** One caller has read and will make the group `target`. */
  ghost predicate PlanHeadedFor(s: State, target: G.Group) {
    s.checks == map[]
    && exists c :: c in s.plans && s.plans.Keys == {c} && s.plans[c].writes != []
                   && Play(s.group, s.plans[c].writes) == target
  }

  /** Nobody is at work and the group is `target`, or one caller is and will make it so. */
  ghost predicate HeadedFor(s: State, target: G.Group) {
    (AtRest(s) && s.group == target) || CheckHeadedFor(s, target) || PlanHeadedFor(s, target)
  }

  lemma CallStaysHeaded(s: State, n: nat, c: nat, target: G.Group)
    requires PlanHeadedFor(s, target)
    ensures HeadedFor(Next(s, n, Call(c)), target)
  {
    var s' := Next(s, n, Call(c));
    var d :| d in s.plans && s.plans.Keys == {d} && s.plans[d].writes != [] && Play(s.group, s.plans[d].writes) == target;
    if c == d {
      if !Acts(s, Call(c)) {
        assert s'.plans == map[];
      } else if |s.plans[c].writes| == 1 {
        assert s.plans[c].writes[1..] == [] && s'.plans == map[];
        assert Play(s'.group, s.plans[c].writes[1..]) == s'.group == target;
      } else {
        assert c in s'.plans && s'.plans.Keys == {c};
      }
    } else {
      assert s'.plans == s.plans;
    }
  }

  lemma PlanIsHeaded(s: State, n: nat, c: nat, now: int, op: G.Op)
    requires s.plans == map[] && s.checks.Keys <= {c} && MayRead(s, c, op)
    ensures HeadedFor(Next(s, n, Read(c, now, op)), Play(s.group, Writes(s.group, now, op)))
  {
    var s' := Next(s, n, Read(c, now, op));
    assert s'.checks == map[];
    if Writes(s.group, now, op) != [] {
      assert c in s'.plans && s'.plans.Keys == {c};
    }
  }

  lemma BeginIsHeaded(s: State, n: nat, step: Step)
    requires AtRest(s) && Begins(step)
    ensures HeadedFor(Next(s, n, step), G.Next(s.group, step.now, step.op))
  {
    if step.Read? {
      AloneIsAtomic(s.group, step.now, step.op);
      PlanIsHeaded(s, n, step.caller, step.now, step.op);
    } else if G.RoleSuffices(s.group, step.now, step.op.actor, G.Admin) {
      AloneIsAtomic(s.group, step.now, step.op);
      var s' := Next(s, n, step);
      assert step.caller in s'.checks && s'.checks.Keys == {step.caller};
    } else {
      AllowedIff(s.group, step.now, step.op);
    }
  }

  lemma SecondReadStaysHeaded(s: State, n: nat, step: Step, target: G.Group)
    requires CheckHeadedFor(s, target) && Orderly(s, step) && step.Read? && ReadsTwice(step.op)
    ensures HeadedFor(Next(s, n, step), target)
  {
    if MayRead(s, step.caller, step.op) {
      PlanIsHeaded(s, n, step.caller, step.now, step.op);
    }
  }

  /** One step of a run without overlap, whatever the state before is headed for. */
  lemma StepStaysHeaded(s: State, n: nat, step: Step, target: G.Group)
    requires HeadedFor(s, target) && Orderly(s, step)
    ensures HeadedFor(Next(s, n, step), if Begins(step) then G.Next(target, step.now, step.op) else target)
  {
    if Begins(step) {
      assert s.group == target;
      BeginIsHeaded(s, n, step);
    } else if step.Read? && CheckHeadedFor(s, target) {
      SecondReadStaysHeaded(s, n, step, target);
    } else if step.Call? && PlanHeadedFor(s, target) {
      CallStaysHeaded(s, n, step.caller, target);
    } else {
      assert Next(s, n, step) == s;
    }
  }

  lemma HeadedNext(creator: string, run: seq<Step>, trace: seq<State>, n: nat)
    requires |trace| == |run| + 1 && n < |run| && StepAt(run, trace, n) && Orderly(trace[n], run[n])
    requires HeadedFor(trace[n], AtomicState(creator, OpsOf(run, n)))
    ensures HeadedFor(trace[n + 1], AtomicState(creator, OpsOf(run, n + 1)))
  {
    var ops, step := OpsOf(run, n), run[n];
    StepStaysHeaded(trace[n], n, step, AtomicState(creator, ops));
    if Begins(step) {
      AtomicSnoc(creator, ops, G.Event(step.now, step.op));
    } else {
      assert OpsOf(run, n + 1) == ops;
    }
  }

  lemma {:induction false} NonOverlappingIsHeaded(creator: string, run: seq<Step>, trace: seq<State>, n: nat)
    requires IsTrace(creator, run, trace) && NonOverlapping(run, trace) && n <= |run|
    ensures HeadedFor(trace[n], AtomicState(creator, OpsOf(run, n)))
  {
    if n > 0 {
      NonOverlappingIsHeaded(creator, run, trace, n - 1);
      assert StepAt(run, trace, n - 1) && Orderly(trace[n - 1], run[n - 1]);
      HeadedNext(creator, run, trace, n - 1);
    }
  }

  /** Without overlap, hub calls add up to operations at one instant, so at rest there is an owner
      if and only if no sole owner transferred to itself. */
  lemma NonOverlappingOwnerIff(creator: string, run: seq<Step>, trace: seq<State>, n: nat)
    requires IsTrace(creator, run, trace) && NonOverlapping(run, trace)
    requires n <= |run| && AtRest(trace[n])
    ensures trace[n].group == AtomicState(creator, OpsOf(run, n))
    ensures G.HasOwner(trace[n].group)
            <==> forall i :: 0 <= i < |OpsOf(run, n)| ==> !G.LosesOwnerAt(creator, OpsOf(run, n), i)
  {
    NonOverlappingIsHeaded(creator, run, trace, n);
    G.OwnerInEveryState(creator, OpsOf(run, n), |OpsOf(run, n)|);
  }

  // ----- Overlap loses the owner -----

  function StateAfter(creator: string, run: seq<Step>): State {
    if run == [] then Initial(creator)
    else Next(StateAfter(creator, run[..|run| - 1]), |run| - 1, run[|run| - 1])
  }

  lemma Snoc(creator: string, run: seq<Step>, step: Step)
    ensures StateAfter(creator, run + [step]) == Next(StateAfter(creator, run), |run|, step)
  {
    assert (run + [step])[..|run|] == run;
  }

  /** The other callers stand where they stood. */
  ghost predicate OthersStay(s: State, s': State, c: nat) {
    forall d :: d != c ==>
      && (d in s'.checks <==> d in s.checks) && (d in s.checks ==> s'.checks[d] == s.checks[d])
      && (d in s'.plans <==> d in s.plans) && (d in s.plans ==> s'.plans[d] == s.plans[d])
  }

  lemma ThenCheck(x: string, run: seq<Step>, c: nat, now: int, op: G.Op) returns (run': seq<Step>)
    requires c !in StateAfter(x, run).plans && c !in StateAfter(x, run).checks && ReadsTwice(op)
    requires G.RoleSuffices(StateAfter(x, run).group, now, op.actor, G.Admin)
    ensures var s, s' := StateAfter(x, run), StateAfter(x, run');
            && s'.group == s.group && c !in s'.plans && c in s'.checks && s'.checks[c].op == op && OthersStay(s, s', c)
  {
    Snoc(x, run, Check(c, now, op));
    run' := run + [Check(c, now, op)];
  }

  lemma ThenRead(x: string, run: seq<Step>, c: nat, now: int, op: G.Op) returns (run': seq<Step>)
    requires MayRead(StateAfter(x, run), c, op) && Writes(StateAfter(x, run).group, now, op) != []
    ensures var s, s' := StateAfter(x, run), StateAfter(x, run');
            && s'.group == s.group && c !in s'.checks && OthersStay(s, s', c)
            && c in s'.plans && s'.plans[c].op == op && s'.plans[c].writes == Writes(s.group, now, op)
  {
    Snoc(x, run, Read(c, now, op));
    run' := run + [Read(c, now, op)];
  }

  lemma ThenCall(x: string, run: seq<Step>, c: nat) returns (run': seq<Step>)
    requires Acts(StateAfter(x, run), Call(c)) && c !in StateAfter(x, run).checks
    ensures var s, s' := StateAfter(x, run), StateAfter(x, run');
            && s'.group == Effect(s.group, s.plans[c].writes[0]) && c !in s'.checks && OthersStay(s, s', c)
            && (c in s'.plans <==> |s.plans[c].writes| > 1)
            && (c in s'.plans ==> s'.plans[c].writes == s.plans[c].writes[1..])
  {
    Snoc(x, run, Call(c));
    run' := run + [Call(c)];
  }

  lemma NobodyAtWork(s: State)
    requires forall c :: c !in s.checks && c !in s.plans
    ensures AtRest(s)
  {
    assert s.checks.Keys == {} && s.plans.Keys == {};
  }

  function Pair(x: string, rx: G.Role, t: string, rt: G.Role): G.Group {
    map[x := G.Membership(rx, None), t := G.Membership(rt, None)]
  }

  /** Owner `x` and member `t`, nobody at work. */
  lemma TwoMembers(x: string, t: string) returns (run: seq<Step>)
    requires x != t
    ensures StateAfter(x, run) == State(Pair(x, G.Owner, t, G.Member), map[], map[])
  {
    run := ThenRead(x, [], 0, 0, G.Join(t));
    run := ThenCall(x, run, 0);
    NobodyAtWork(StateAfter(x, run));
  }

  lemma WholeTransfer(x: string, run: seq<Step>, c: nat, a: string, n: string) returns (run': seq<Step>)
    requires c !in StateAfter(x, run).plans && c !in StateAfter(x, run).checks
    requires G.MayTransfer(StateAfter(x, run).group, a, n)
    ensures var s, s' := StateAfter(x, run), StateAfter(x, run');
            && s'.group == G.PutRole(G.PutRole(s.group, n, G.Owner), a, G.Admin)
            && c !in s'.plans && c !in s'.checks && OthersStay(s, s', c)
  {
    run' := ThenRead(x, run, c, 0, G.Transfer(a, n));
    run' := ThenCall(x, run', c);
    run' := ThenCall(x, run', c);
  }

  lemma SubjectIsNoOwnerIn(x: string, t: string, op: G.Op)
    requires x != t && x != "" && t != ""
    requires op == G.SetRole(x, t, G.Admin) || op == G.RemoveMember(x, t) || op == G.Leave(t)
    ensures Writes(Pair(x, G.Owner, t, G.Member), 0, op) == [if op.SetRole? then Put(t, G.Admin) else Remove(t)]
  {}

  /** An operation on `t` decided while `x` owned the group, `x` having transferred it to `t` since. */
  lemma Overtake(x: string, t: string, op: G.Op) returns (run: seq<Step>)
    requires x != t && x != "" && t != ""
    requires op == G.SetRole(x, t, G.Admin) || op == G.RemoveMember(x, t) || op == G.Leave(t)
    ensures var s := StateAfter(x, run);
            && s.group == Pair(x, G.Admin, t, G.Owner) && 1 in s.plans && s.plans[1].op == op
            && s.plans[1].writes == [if op.SetRole? then Put(t, G.Admin) else Remove(t)]
            && forall c :: c !in s.checks && (c in s.plans ==> c == 1)
  {
    run := TwoMembers(x, t);
    SubjectIsNoOwnerIn(x, t, op);
    run := ThenRead(x, run, 1, 0, op);
    run := WholeTransfer(x, run, 2, x, t);
  }

  /** A role change, removal or leave decided before a transfer and written after it leaves the
      group without owner, although nobody transferred to itself. */
  lemma OvertakenLosesOwner(x: string, t: string, op: G.Op) returns (run: seq<Step>)
    requires x != t && x != "" && t != ""
    requires op == G.SetRole(x, t, G.Admin) || op == G.RemoveMember(x, t) || op == G.Leave(t)
    ensures AtRest(StateAfter(x, run)) && !G.HasOwner(StateAfter(x, run).group)
  {
    run := Overtake(x, t, op);
    run := ThenCall(x, run, 1);
    NobodyAtWork(StateAfter(x, run));
  }

  /** So does a transfer back between the two writes of a transfer. */
  lemma TransfersCrossing(x: string, t: string) returns (run: seq<Step>)
    requires x != t
    ensures AtRest(StateAfter(x, run)) && !G.HasOwner(StateAfter(x, run).group)
  {
    run := TwoMembers(x, t);
    run := ThenRead(x, run, 1, 0, G.Transfer(x, t));
    run := ThenCall(x, run, 1);
    assert StateAfter(x, run).group == Pair(x, G.Owner, t, G.Owner);
    run := WholeTransfer(x, run, 2, t, x);
    assert StateAfter(x, run).group == Pair(x, G.Owner, t, G.Admin);
    run := ThenCall(x, run, 1);
    NobodyAtWork(StateAfter(x, run));
  }

  /** The writer of a rank need not be an owner any more: a role change decided by an owner is
      written after the transfer that made that owner an admin. */
  lemma FormerOwnerGivesRank(x: string, t: string) returns (run: seq<Step>)
    requires x != t && x != "" && t != ""
    ensures var s := StateAfter(x, run);
            && Acts(s, Call(1)) && s.plans[1].op == G.SetRole(x, t, G.Admin) && WriteOf(s, Call(1)) == Put(t, G.Admin)
            && !IsOwner(s.group, x)
  {
    run := Overtake(x, t, G.SetRole(x, t, G.Admin));
  }

  /** Owner `x` gives member `m` one second of temporary rank, at time 0. */
  lemma ShortGrant(x: string, m: string, t: string) returns (run: seq<Step>)
    requires x != m && x != t && m != t && m != ""
    ensures var s := StateAfter(x, run);
            && AtRest(s) && s.group == Pair(x, G.Owner, t, G.Member)[m := G.Membership(G.Member, Some(1))]
  {
    run := TwoMembers(x, m);
    run := ThenRead(x, run, 3, 0, G.Join(t));
    run := ThenCall(x, run, 3);
    run := ThenCheck(x, run, 1, 0, G.Grant(x, m, 1));
    run := ThenRead(x, run, 1, 0, G.Grant(x, m, 1));
    run := ThenCall(x, run, 1);
    NobodyAtWork(StateAfter(x, run));
  }

  /** The exception happens: a plain member whose own grant ends between the two readings makes a
      grant. */
  lemma ExpiringGrantIsPassedOn(x: string, m: string, t: string) returns (run: seq<Step>)
    requires x != m && x != t && m != t && m != "" && t != ""
    ensures var s := StateAfter(x, run);
            && AtRest(s) && m in s.group && s.group[m].role == G.Member && !G.HasActiveGrant(s.group[m], 1)
            && t in s.group && s.group[t].tempAdminUntil == Some(61)
  {
    run := ShortGrant(x, m, t);
    run := ThenCheck(x, run, 2, 0, G.Grant(m, t, 60));
    run := ThenRead(x, run, 2, 1, G.Grant(m, t, 60));
    run := ThenCall(x, run, 2);
    NobodyAtWork(StateAfter(x, run));
  }

}
