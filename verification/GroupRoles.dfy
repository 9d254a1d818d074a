/** Roles in one group: ownership, rank-guarded changes and timed temporary-admin grants. */
module GroupRoles {
  import opened Common

  datatype Role = Member | Admin | Owner

  function Rank(r: Role): int {
    match r
    case Owner => 2
    case Admin => 1
    case Member => 0
  }

  datatype Membership = Membership(role: Role, tempAdminUntil: Option<int>)

  type Group = map<string, Membership>

  /** 7 days, in seconds. */
  const MAX_TEMP_ADMIN_DURATION_SECS := 604800

  predicate HasActiveGrant(m: Membership, now: int) {
    m.tempAdminUntil.Some? && m.tempAdminUntil.value > now
  }

  /** `effective_role_rank`. */
  function EffectiveRank(m: Membership, now: int): int {
    if HasActiveGrant(m, now) && Rank(m.role) < Rank(Admin) then Rank(Admin) else Rank(m.role)
  }

  // ----- The operations -----

  datatype Op =
    | Join(user: string)
    | AddMember(actor: string, target: string)
    | RemoveMember(actor: string, target: string)
    | SetRole(actor: string, target: string, newRole: Role)
    | Transfer(actor: string, newOwner: string)
    | Leave(user: string)
    | Grant(actor: string, target: string, seconds: int)
    | Revoke(actor: string, target: string)
    | Cleanup

  /** The hub's `add_group_member` keeps an existing row as it is. */
  function AddRow(g: Group, user: string): Group {
    if user in g then g else g[user := Membership(Member, None)]
  }

  /** The hub's `set_group_member_role`. */
  function PutRole(g: Group, user: string, role: Role): Group
    requires user in g
  {
    g[user := g[user].(role := role)]
  }

  predicate RoleSuffices(g: Group, now: int, actor: string, required: Role) {
    actor in g && EffectiveRank(g[actor], now) >= Rank(required)
  }

  function OwnersOf(g: Group): set<string> {
    set u | u in g && g[u].role == Owner
  }

  /** `set_role`; `guarded` says whether the "cannot demote the last owner" check is present. */
  function SetRoleIn(g: Group, actor: string, target: string, newRole: Role, guarded: bool): Result<Group, string> {
    if actor == "" || target == "" then Err("empty id")
    else if actor !in g then Err("actor is not a member")
    else if target !in g then Err("target is not a member")
    else if Rank(g[actor].role) <= Rank(g[target].role) then Err("actor must have strictly higher role than target")
    else if guarded && g[target].role == Owner && newRole != Owner && |OwnersOf(g)| <= 1 then
      Err("cannot demote the last owner")
    else if newRole != Member && Rank(g[actor].role) >= Rank(Admin) && g[actor].role != Owner then
      Err("only owners can promote to admin or owner")
    else Ok(PutRole(g, target, newRole))
  }

  predicate MayTransfer(g: Group, actor: string, newOwner: string) {
    actor in g && g[actor].role == Owner && newOwner in g
  }

  function MinInt(a: int, b: int): int { if a < b then a else b }

  function GrantIn(g: Group, now: int, actor: string, target: string, seconds: int): Result<Group, string> {
    if !RoleSuffices(g, now, actor, Admin) then Err("role is insufficient")
    else if HasActiveGrant(g[actor], now) then Err("temporary admins cannot grant temporary admin privileges")
    else if actor == target then Err("cannot grant temporary admin to yourself")
    else if target == "" then Err("target user_id is empty")
    else if seconds <= 0 then Err("duration_secs must be positive")
    else if target !in g then Err("target is not a member")
    else
      var until := now + MinInt(seconds, MAX_TEMP_ADMIN_DURATION_SECS);
      Ok(g[target := g[target].(tempAdminUntil := Some(until))])
  }

  /** Every operation, at one instant. */
  function Apply(g: Group, now: int, op: Op): Result<Group, string> {
    match op
    case Join(u) => Ok(AddRow(g, u))
    case AddMember(a, t) => if RoleSuffices(g, now, a, Admin) then Ok(AddRow(g, t)) else Err("role is insufficient")
    case RemoveMember(a, t) =>
      if t !in g then Err("target is not a member")
      else if a !in g then Err("actor is not a member")
      else if Rank(g[a].role) <= Rank(g[t].role) then Err("cannot remove member with equal or higher role")
      else Ok(g - {t})
    case SetRole(a, t, r) => SetRoleIn(g, a, t, r, true)
    case Transfer(a, n) =>
      if !MayTransfer(g, a, n) then Err("not an owner, or new owner is not a member")
      else Ok(PutRole(PutRole(g, n, Owner), a, Admin))
    case Leave(u) =>
      if u == "" then Err("user_id is empty")
      else if u !in g then Err("not a member")
      else if g[u].role == Owner then Err("owner must transfer ownership or dissolve the group before leaving")
      else Ok(g - {u})
    case Grant(a, t, s) => GrantIn(g, now, a, t, s)
    case Revoke(a, t) =>
      if !RoleSuffices(g, now, a, Admin) then Err("role is insufficient")
      else if HasActiveGrant(g[a], now) then Err("temporary admins cannot revoke temporary admin privileges")
      else if t !in g then Err("target is not a member")
      else Ok(g[t := g[t].(tempAdminUntil := None)])
    case Cleanup =>
      Ok(map u | u in g :: if g[u].tempAdminUntil.Some? && g[u].tempAdminUntil.value < now
                           then g[u].(tempAdminUntil := None) else g[u])
  }

  /** A refused operation changes nothing. */
  function Next(g: Group, now: int, op: Op): Group {
    var r := Apply(g, now, op);
    if r.Ok? then r.value else g
  }

  // ----- When each operation is carried out, and what it does -----

  /** Nobody but `u` joins, leaves or changes. */
  ghost predicate SameExcept(g: Group, g': Group, u: string) {
    forall v :: v != u ==> (v in g' <==> v in g) && (v in g ==> g'[v] == g[v])
  }

  /** An owner outranks admins and members, an admin outranks members. */
  predicate Outranks(a: Role, b: Role) {
    (a == Owner && b != Owner) || (a == Admin && b == Member)
  }

  lemma RefusedChangesNothing(g: Group, now: int, op: Op)
    ensures Apply(g, now, op).Err? ==> Next(g, now, op) == g
  {}

  /** Joining never fails and never touches an existing membership. */
  lemma JoinOutcome(g: Group, now: int, u: string)
    ensures Apply(g, now, Join(u)).Ok?
    ensures var g' := Next(g, now, Join(u));
            SameExcept(g, g', u) && u in g' && g'[u] == if u in g then g[u] else Membership(Member, None)
  {}

  /** Permanent admins, owners and temporary admins may add. */
  lemma AddMemberOutcome(g: Group, now: int, a: string, t: string)
    ensures Apply(g, now, AddMember(a, t)).Ok? <==> a in g && (g[a].role != Member || HasActiveGrant(g[a], now))
    ensures Apply(g, now, AddMember(a, t)).Ok? ==>
              var g' := Next(g, now, AddMember(a, t));
              SameExcept(g, g', t) && t in g' && g'[t] == if t in g then g[t] else Membership(Member, None)
  {}

  lemma RemoveMemberOutcome(g: Group, now: int, a: string, t: string)
    ensures Apply(g, now, RemoveMember(a, t)).Ok? <==> a in g && t in g && Outranks(g[a].role, g[t].role)
    ensures Apply(g, now, RemoveMember(a, t)).Ok? ==>
              var g' := Next(g, now, RemoveMember(a, t)); SameExcept(g, g', t) && t !in g'
  {}

  /** Owners give any role to anybody who is not an owner; admins can only confirm members as such. */
  lemma SetRoleOutcome(g: Group, now: int, a: string, t: string, r: Role)
    ensures Apply(g, now, SetRole(a, t, r)).Ok?
            <==> && a != "" && t != "" && a in g && t in g
                 && ((g[a].role == Owner && g[t].role != Owner)
                     || (g[a].role == Admin && g[t].role == Member && r == Member))
    ensures Apply(g, now, SetRole(a, t, r)).Ok? ==>
              var g' := Next(g, now, SetRole(a, t, r));
              SameExcept(g, g', t) && t in g' && g'[t] == g[t].(role := r)
  {}

  lemma TransferOutcome(g: Group, now: int, a: string, n: string)
    ensures Apply(g, now, Transfer(a, n)).Ok? <==> a in g && n in g && g[a].role == Owner
    ensures Apply(g, now, Transfer(a, n)).Ok? ==>
              var g' := Next(g, now, Transfer(a, n));
              && g'.Keys == g.Keys && (forall v :: v in g && v != a && v != n ==> g'[v] == g[v])
              && g'[a] == g[a].(role := Admin) && (n != a ==> g'[n] == g[n].(role := Owner))
  {}

  lemma LeaveOutcome(g: Group, now: int, u: string)
    ensures Apply(g, now, Leave(u)).Ok? <==> u != "" && u in g && g[u].role != Owner
    ensures Apply(g, now, Leave(u)).Ok? ==>
              var g' := Next(g, now, Leave(u)); SameExcept(g, g', u) && u !in g'
  {}

  /** Whoever may grant and revoke: permanent rank, and no active grant of their own. */
  predicate MayGrant(g: Group, now: int, a: string) {
    a in g && g[a].role != Member && !HasActiveGrant(g[a], now)
  }

  lemma GrantOutcome(g: Group, now: int, a: string, t: string, s: int)
    ensures Apply(g, now, Grant(a, t, s)).Ok? <==> MayGrant(g, now, a) && a != t && t != "" && s > 0 && t in g
    ensures Apply(g, now, Grant(a, t, s)).Ok? ==>
              var g' := Next(g, now, Grant(a, t, s));
              var until := now + if s < MAX_TEMP_ADMIN_DURATION_SECS then s else MAX_TEMP_ADMIN_DURATION_SECS;
              SameExcept(g, g', t) && t in g' && g'[t] == g[t].(tempAdminUntil := Some(until))
  {}

  /** A revocation ends the temporary rank at once and for good, and changes nothing else. */
  lemma RevokeOutcome(g: Group, now: int, a: string, t: string, later: int)
    ensures Apply(g, now, Revoke(a, t)).Ok? <==> MayGrant(g, now, a) && t in g
    ensures Apply(g, now, Revoke(a, t)).Ok? ==>
              var g' := Next(g, now, Revoke(a, t));
              && SameExcept(g, g', t) && t in g' && g'[t].role == g[t].role
              && !HasActiveGrant(g'[t], later) && EffectiveRank(g'[t], later) == Rank(g[t].role)
  {}

  /** Cleaning up forgets grants that are over, and nobody's rank changes by it. */
  lemma CleanupOutcome(g: Group, now: int, u: string, later: int)
    requires u in g && now <= later
    ensures var g' := Next(g, now, Cleanup);
            && g'.Keys == g.Keys && g'[u].role == g[u].role
            && (g'[u].tempAdminUntil.Some? <==> g[u].tempAdminUntil.Some? && now <= g[u].tempAdminUntil.value)
            && EffectiveRank(g'[u], later) == EffectiveRank(g[u], later)
  {}

  // ----- There is always an owner, with one exception -----

  ghost predicate HasOwner(g: Group) {
    exists u :: u in g && g[u].role == Owner
  }

  ghost predicate IsSoleOwner(g: Group, u: string) {
    u in g && g[u].role == Owner && forall v :: v in g && g[v].role == Owner ==> v == u
  }

  /** A sole owner handing the group to itself: not rejected, and demoted last. */
  ghost predicate IsSoleSelfTransfer(g: Group, op: Op) {
    op.Transfer? && op.actor == op.newOwner && IsSoleOwner(g, op.actor)
  }

  /** An owner other than the actor of a transfer keeps the role through any one operation. */
  lemma OwnerStays(g: Group, now: int, op: Op, u: string)
    requires u in g && g[u].role == Owner && !(op.Transfer? && op.actor == u)
    ensures u in Next(g, now, op) && Next(g, now, op)[u].role == Owner
  {}

  /** One operation leaves a group without owner exactly when it is a sole owner's transfer to itself. */
  lemma OwnerLostIff(g: Group, now: int, op: Op)
    requires HasOwner(g)
    ensures HasOwner(Next(g, now, op)) <==> !IsSoleSelfTransfer(g, op)
  {
    var u :| u in g && g[u].role == Owner;
    var g' := Next(g, now, op);
    if op.Transfer? && MayTransfer(g, op.actor, op.newOwner) {
      if op.actor != op.newOwner {
        assert g'[op.newOwner].role == Owner;
      } else if !IsSoleOwner(g, op.actor) {
        var v :| v in g && g[v].role == Owner && v != op.actor;
        assert g'[v].role == Owner;
      }
    } else if !op.Transfer? {
      OwnerStays(g, now, op, u);
    }
  }

  /** Between the promotion and the demotion of a transfer there is an owner. */
  lemma OwnerAtMidpoint(g: Group, actor: string, newOwner: string)
    requires MayTransfer(g, actor, newOwner)
    ensures HasOwner(PutRole(g, newOwner, Owner))
  {
    assert PutRole(g, newOwner, Owner)[newOwner].role == Owner;
  }

  /** The "last owner" check of `set_role` never decides anything: no one outranks an owner. */
  lemma LastOwnerGuardUnreachable(g: Group, actor: string, target: string, newRole: Role)
    ensures SetRoleIn(g, actor, target, newRole, true) == SetRoleIn(g, actor, target, newRole, false)
  {}

  // ----- Who may change whom -----

  /** A membership ends only when its holder, not an owner, leaves, or at the hands of someone of
      strictly higher permanent rank. Temporary rank never counts. */
  lemma RemovedOnlyBy(g: Group, now: int, op: Op, u: string)
    requires u in g && u !in Next(g, now, op)
    ensures || (op == Leave(u) && g[u].role != Owner)
            || (op.RemoveMember? && op.target == u && op.actor in g && Rank(g[op.actor].role) > Rank(g[u].role))
  {}

  /** A role changes only by someone of strictly higher permanent rank or by an owner's transfer. */
  lemma RoleChangedOnlyBy(g: Group, now: int, op: Op, u: string)
    requires u in g && u in Next(g, now, op) && Next(g, now, op)[u].role != g[u].role
    ensures || (op.SetRole? && op.target == u && op.actor in g && Rank(g[op.actor].role) > Rank(g[u].role)
                && Next(g, now, op)[u].role == op.newRole)
            || (op.Transfer? && op.actor in g && g[op.actor].role == Owner
                && Next(g, now, op)[u].role == if u == op.actor then Admin else Owner)
  {}

  /** An active grant ends early only when a permanent admin or owner without one revokes it, or
      when it is replaced by a new grant. */
  lemma GrantEndsOnlyBy(g: Group, now: int, op: Op, u: string)
    requires u in g && HasActiveGrant(g[u], now) && u in Next(g, now, op)
    requires Next(g, now, op)[u].tempAdminUntil != g[u].tempAdminUntil
    ensures (op.Revoke? || op.Grant?) && op.target == u && op.actor in g
            && Rank(g[op.actor].role) >= Rank(Admin) && !HasActiveGrant(g[op.actor], now)
  {}

  // ----- Whole runs -----

  datatype Event = Event(now: int, op: Op)

  /** The group after `create` by `creator` and the first `n` events. */
  function StateAt(creator: string, run: seq<Event>, n: nat): Group
    requires n <= |run|
  {
    if n == 0 then map[creator := Membership(Owner, None)]
    else Next(StateAt(creator, run, n - 1), run[n - 1].now, run[n - 1].op)
  }

  /** Event `i` is a sole owner's transfer to itself. */
  ghost predicate LosesOwnerAt(creator: string, run: seq<Event>, i: nat)
    requires i < |run|
  {
    IsSoleSelfTransfer(StateAt(creator, run, i), run[i].op)
  }

  /** Ownerless is for ever: no operation makes an owner where there is none. */
  lemma OwnerlessStep(g: Group, now: int, op: Op)
    ensures HasOwner(Next(g, now, op)) <==> HasOwner(g) && !IsSoleSelfTransfer(g, op)
  {
    if HasOwner(g) {
      OwnerLostIff(g, now, op);
    } else {
      assert forall u :: u in g ==> g[u].role != Owner;
      var g' := Next(g, now, op);
      assert forall u :: u in g' ==> g'[u].role != Owner;
    }
  }

  /** A reachable state has an owner exactly when no sole owner transferred to itself before it:
      nothing else loses the owner, and nothing brings one back. */
  lemma {:induction false} OwnerInEveryState(creator: string, run: seq<Event>, n: nat)
    requires n <= |run|
    ensures HasOwner(StateAt(creator, run, n)) <==> forall i :: 0 <= i < n ==> !LosesOwnerAt(creator, run, i)
  {
    if n == 0 {
      assert StateAt(creator, run, 0)[creator].role == Owner;
    } else {
      OwnerInEveryState(creator, run, n - 1);
      var g, e := StateAt(creator, run, n - 1), run[n - 1];
      OwnerlessStep(g, e.now, e.op);
      assert LosesOwnerAt(creator, run, n - 1) == IsSoleSelfTransfer(g, e.op);
    }
  }

  /** The shortest run without owner: the creator transfers the group to itself. */
  lemma SelfTransferLosesOwner(creator: string, now: int)
    ensures !HasOwner(StateAt(creator, [Event(now, Transfer(creator, creator))], 1))
  {
    assert StateAt(creator, [Event(now, Transfer(creator, creator))], 0) == map[creator := Membership(Owner, None)];
  }

  // ----- Where permanent rank comes from -----

  /** Event `i` gave `u` a rank of admin or above, and its actor was an owner at the time. */
  ghost predicate RaisedByOwner(creator: string, run: seq<Event>, i: nat, u: string, role: Role)
    requires i < |run|
  {
    var g, op := StateAt(creator, run, i), run[i].op;
    && (op.SetRole? || op.Transfer?) && op.actor in g && g[op.actor].role == Owner
    && u in StateAt(creator, run, i + 1) && StateAt(creator, run, i + 1)[u].role == role
  }

  lemma RankComesFromOwner(g: Group, now: int, op: Op, u: string)
    requires u in Next(g, now, op) && Next(g, now, op)[u].role != Member
    requires u in g ==> g[u].role != Next(g, now, op)[u].role
    ensures (op.SetRole? || op.Transfer?) && op.actor in g && g[op.actor].role == Owner
  {}

  /** In every reachable state, a permanent admin or owner is the creator, never demoted since, or
      was given exactly that role by an owner. */
  lemma {:induction false} PermanentRankFromOwner(creator: string, run: seq<Event>, n: nat, u: string)
    requires n <= |run| && u in StateAt(creator, run, n) && StateAt(creator, run, n)[u].role != Member
    ensures var role := StateAt(creator, run, n)[u].role;
            || (exists i :: 0 <= i < n && RaisedByOwner(creator, run, i, u, role))
            || (u == creator && role == Owner
                && forall i :: 0 <= i <= n ==> u in StateAt(creator, run, i) && StateAt(creator, run, i)[u].role == Owner)
  {
    if n > 0 {
      var g, g' := StateAt(creator, run, n - 1), StateAt(creator, run, n);
      if u in g && g[u].role == g'[u].role {
        PermanentRankFromOwner(creator, run, n - 1, u);
      } else {
        RankComesFromOwner(g, run[n - 1].now, run[n - 1].op, u);
        assert RaisedByOwner(creator, run, n - 1, u, g'[u].role);
      }
    }
  }

  // ----- Where temporary rank comes from -----

  /** Event `i` granted `u` temporary rank until `until`: by a member of permanent rank, holding no
      active grant, other than `u`, for at most seven days. */
  ghost predicate GrantedAt(creator: string, run: seq<Event>, i: nat, u: string, until: int)
    requires i < |run|
  {
    var g, e := StateAt(creator, run, i), run[i];
    && e.op.Grant? && e.op.target == u && e.op.actor != u
    && e.op.actor in g && Rank(g[e.op.actor].role) >= Rank(Admin) && !HasActiveGrant(g[e.op.actor], e.now)
    && e.now < until <= e.now + MAX_TEMP_ADMIN_DURATION_SECS
  }

  lemma GrantStep(g: Group, now: int, op: Op, u: string)
    requires u in Next(g, now, op) && Next(g, now, op)[u].tempAdminUntil.Some?
    requires u in g ==> g[u].tempAdminUntil != Next(g, now, op)[u].tempAdminUntil
    ensures var until := Next(g, now, op)[u].tempAdminUntil.value;
            && op.Grant? && op.target == u && op.actor != u && op.actor in g
            && Rank(g[op.actor].role) >= Rank(Admin) && !HasActiveGrant(g[op.actor], now)
            && now < until <= now + MAX_TEMP_ADMIN_DURATION_SECS
  {}

  /** In every reachable state, each temporary grant was made by a permanent admin or owner who had
      no active grant and is not its holder, and lasts at most seven days. */
  lemma {:induction false} GrantsHaveSource(creator: string, run: seq<Event>, n: nat, u: string)
    requires n <= |run| && u in StateAt(creator, run, n) && StateAt(creator, run, n)[u].tempAdminUntil.Some?
    ensures exists i :: 0 <= i < n && GrantedAt(creator, run, i, u, StateAt(creator, run, n)[u].tempAdminUntil.value)
  {
    if n > 0 {
      var g, g' := StateAt(creator, run, n - 1), StateAt(creator, run, n);
      if u in g && g[u].tempAdminUntil == g'[u].tempAdminUntil {
        GrantsHaveSource(creator, run, n - 1, u);
      } else {
        GrantStep(g, run[n - 1].now, run[n - 1].op, u);
        assert GrantedAt(creator, run, n - 1, u, g'[u].tempAdminUntil.value);
      }
    }
  }

  /** Seven days after the last grant, everybody is back to their permanent rank. */
  lemma GrantsWearOff(creator: string, run: seq<Event>, now: int, u: string)
    requires u in StateAt(creator, run, |run|)
    requires forall i :: 0 <= i < |run| && run[i].op.Grant? ==> run[i].now + MAX_TEMP_ADMIN_DURATION_SECS <= now
    ensures var m := StateAt(creator, run, |run|)[u]; EffectiveRank(m, now) == Rank(m.role)
  {
    var m := StateAt(creator, run, |run|)[u];
    if m.tempAdminUntil.Some? {
      GrantsHaveSource(creator, run, |run|, u);
    }
  }

  // ----- The operations on the hub's rows -----

  lemma OwnerLostOnlyByTransfer(g: Group, op: Op)
    requires !op.Transfer?
    ensures HasOwner(g) ==> HasOwner(Next(g, 0, op))
  {
    if HasOwner(g) { OwnerLostIff(g, 0, op); }
  }

  class GroupHub {
    var members: Group

    constructor (creator: string)
      ensures members == StateAt(creator, [], 0)
    {
      members := map[creator := Membership(Owner, None)];
    }

    method SetRole(actor: string, target: string, newRole: Role) returns (ok: bool)
      modifies this
      ensures ok <==> && actor != "" && target != "" && actor in old(members) && target in old(members)
                      && ((old(members)[actor].role == Owner && old(members)[target].role != Owner)
                          || (old(members)[actor].role == Admin && old(members)[target].role == Member
                              && newRole == Member))
      ensures members == Next(old(members), 0, Op.SetRole(actor, target, newRole))
      ensures ok ==> SameExcept(old(members), members, target) && target in members
                     && members[target] == old(members)[target].(role := newRole)
      ensures HasOwner(old(members)) ==> HasOwner(members)
    {
      OwnerLostOnlyByTransfer(members, Op.SetRole(actor, target, newRole));
      if actor == "" || target == "" { return false; }
      if actor !in members || target !in members { return false; }
      var actorRank, targetRank := Rank(members[actor].role), Rank(members[target].role);
      if actorRank <= targetRank { return false; }
      if members[target].role == Owner && newRole != Owner {
        // Dead: nobody outranks an owner.
        assert false;
      }
      if newRole != Member && actorRank >= Rank(Admin) && members[actor].role != Owner { return false; }
      members := members[target := members[target].(role := newRole)];
      return true;
    }

    /** `transfer_ownership`: promote first, then demote. */
    method TransferOwnership(actor: string, newOwner: string) returns (ok: bool)
      modifies this
      ensures ok == MayTransfer(old(members), actor, newOwner)
      ensures members == Next(old(members), 0, Transfer(actor, newOwner))
      ensures ok && actor != newOwner ==> members[newOwner].role == Owner && members[actor].role == Admin
      ensures members.Keys == old(members).Keys
              && forall u :: u in members && u != actor && u != newOwner ==> members[u] == old(members)[u]
      ensures HasOwner(old(members)) ==>
                (HasOwner(members) <==> !IsSoleSelfTransfer(old(members), Transfer(actor, newOwner)))
    {
      if HasOwner(members) { OwnerLostIff(members, 0, Transfer(actor, newOwner)); }
      if actor !in members || members[actor].role != Owner { return false; }
      if newOwner !in members { return false; }
      members := PutRole(members, newOwner, Owner);
      assert HasOwner(members) by { OwnerAtMidpoint(old(members), actor, newOwner); }
      members := PutRole(members, actor, Admin);
      return true;
    }

    /** `grant_temp_admin`. */
    method GrantTempAdmin(actor: string, target: string, seconds: int, now: int) returns (ok: bool)
      modifies this
      ensures ok <==> MayGrant(old(members), now, actor) && actor != target && target != "" && seconds > 0
                      && target in old(members)
      ensures members == Next(old(members), now, Grant(actor, target, seconds))
      ensures ok ==> Rank(old(members)[actor].role) >= Rank(Admin) && actor != target
                     && HasActiveGrant(members[target], now)
                     && !HasActiveGrant(members[target], now + MAX_TEMP_ADMIN_DURATION_SECS)
    {
      if !RoleSuffices(members, now, actor, Admin) { return false; }
      if HasActiveGrant(members[actor], now) { return false; }
      if actor == target || target == "" || seconds <= 0 { return false; }
      var duration := MinInt(seconds, MAX_TEMP_ADMIN_DURATION_SECS);
      if target !in members { return false; }
      members := members[target := members[target].(tempAdminUntil := Some(now + duration))];
      return true;
    }

    /** `revoke_temp_admin`: afterwards the target has its permanent rank only, at any time. */
    method RevokeTempAdmin(actor: string, target: string, now: int) returns (ok: bool)
      modifies this
      ensures ok == (MayGrant(old(members), now, actor) && target in old(members))
      ensures members == Next(old(members), now, Revoke(actor, target))
      ensures !ok ==> members == old(members)
      ensures ok ==> SameExcept(old(members), members, target) && target in members
                     && members[target] == old(members)[target].(tempAdminUntil := None)
      ensures ok ==> forall later :: EffectiveRank(members[target], later) == Rank(old(members)[target].role)
    {
      if !RoleSuffices(members, now, actor, Admin) { return false; }
      if HasActiveGrant(members[actor], now) { return false; }
      if target !in members { return false; }
      members := members[target := members[target].(tempAdminUntil := None)];
      return true;
    }
  }

}
