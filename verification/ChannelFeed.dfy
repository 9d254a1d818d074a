/** Public accounts and their feed items: sequence allocation when service calls interleave
    between storage calls. */
module ChannelFeed {
  import opened Common

  const U32_MAX := 0xFFFF_FFFF

  datatype Account = Account(owner: string, profile: string, sequence: nat, subscriberCount: nat)

  datatype Item = Item(sequence: nat, body: string, isRetracted: bool)

  /** `public_accounts` keyed by account id; `feed_items` keyed by account id and feed id. */
  datatype Tables = Tables(accounts: map<string, Account>, feed: map<(string, string), Item>)

  // ----- One storage call each -----

  /** Another account already belongs to this owner (`UNIQUE(owner_node_id)`). */
  predicate OwnerTaken(t: Tables, id: string, owner: string) {
    exists other :: other in t.accounts && other != id && t.accounts[other].owner == owner
  }

  /** `put_account`: on an existing id, everything but the sequence and the count is replaced. */
  function PutAccount(t: Tables, id: string, a: Account): Result<Tables, string> {
    if OwnerTaken(t, id, a.owner) then Err("UNIQUE constraint failed")
    else if id in t.accounts then
      var was := t.accounts[id];
      Ok(t.(accounts := t.accounts[id := a.(sequence := was.sequence, subscriberCount := was.subscriberCount)]))
    else Ok(t.(accounts := t.accounts[id := a]))
  }

  /** `bump_account_sequence`, before the `as u32` of the number it returns. */
  function Bump(t: Tables, id: string): Tables
    requires id in t.accounts
  {
    var a := t.accounts[id];
    t.(accounts := t.accounts[id := a.(sequence := a.sequence + 1)])
  }

  /** `INSERT OR REPLACE` deletes every row that clashes on the primary key or on the unique
      index over account and sequence. */
  predicate Clashes(t: Tables, key: (string, string), id: string, feedId: string, sequence: nat)
    requires key in t.feed
  {
    key.0 == id && (key.1 == feedId || t.feed[key].sequence == sequence)
  }

  function PutFeedItem(t: Tables, id: string, feedId: string, item: Item): Tables {
    var kept := map key | key in t.feed && !Clashes(t, key, id, feedId, item.sequence) :: t.feed[key];
    t.(feed := kept[(id, feedId) := item])
  }

  function RetractItem(t: Tables, id: string, feedId: string): Tables {
    if (id, feedId) in t.feed
    then t.(feed := t.feed[(id, feedId) := t.feed[(id, feedId)].(isRetracted := true)])
    else t
  }

  // ----- Interleaved service calls -----

  /** A sequence number handed out by `bump_account_sequence`. */
  datatype Ticket = Ticket(account: string, number: nat)

  /** `publishing` holds the callers between the bump and the insert; `updating` the callers
      between reading an account and writing it back. `issued` records every bump. */
  datatype State = State(tables: Tables, publishing: map<nat, Ticket>, updating: map<nat, (string, Account)>,
                         issued: seq<Ticket>)

  datatype Step =
    | Register(id: string, owner: string, profile: string)
    | PublishBump(caller: nat, id: string)
    | PublishPut(caller: nat, feedId: string, body: string)
    | PublishAbandon(caller: nat)
    | UpdateRead(caller: nat, id: string)
    | UpdateWrite(caller: nat, profile: string)
    | Retract(id: string, feedId: string)

  const INITIAL := State(Tables(map[], map[]), map[], map[], [])

  /** One storage call by one caller; a step that is not enabled changes nothing. */
  function Apply(s: State, step: Step): State {
    match step
    case Register(id, owner, profile) =>
      var r := PutAccount(s.tables, id, Account(owner, profile, 0, 0));
      if r.Ok? then s.(tables := r.value) else s
    case PublishBump(c, id) =>
      if id !in s.tables.accounts || c in s.publishing then s else
      var t := Bump(s.tables, id);
      var ticket := Ticket(id, AsU32(t.accounts[id].sequence));
      s.(tables := t, publishing := s.publishing[c := ticket], issued := s.issued + [ticket])
    case PublishPut(c, feedId, body) =>
      // Feed ids are hashes over the sequence and a fresh nonce: never one already in use.
      if c !in s.publishing || (s.publishing[c].account, feedId) in s.tables.feed then s else
      var ticket := s.publishing[c];
      s.(tables := PutFeedItem(s.tables, ticket.account, feedId, Item(ticket.number, body, false)),
         publishing := s.publishing - {c})
    case PublishAbandon(c) => s.(publishing := s.publishing - {c})
    case UpdateRead(c, id) =>
      if id !in s.tables.accounts then s
      else s.(updating := s.updating[c := (id, s.tables.accounts[id])])
    case UpdateWrite(c, profile) =>
      if c !in s.updating then s else
      var (id, copy) := s.updating[c];
      var r := PutAccount(s.tables, id, copy.(profile := profile));
      if r.Ok? then s.(tables := r.value, updating := s.updating - {c}) else s.(updating := s.updating - {c})
    case Retract(id, feedId) => s.(tables := RetractItem(s.tables, id, feedId))
  }

  function Run(steps: seq<Step>): State {
    if steps == [] then INITIAL else Apply(Run(steps[..|steps| - 1]), steps[|steps| - 1])
  }

  lemma RunSnoc(steps: seq<Step>, step: Step)
    ensures Run(steps + [step]) == Apply(Run(steps), step)
  {
    assert (steps + [step])[..|steps|] == steps;
  }

  // ----- What every step keeps -----

  /** No counter has outgrown the `u32` it is returned in. */
  ghost predicate FitsU32(s: State) {
    forall id :: id in s.tables.accounts ==> s.tables.accounts[id].sequence <= U32_MAX
  }

  /** Numbers issued for one account strictly increase and never exceed its counter. */
  ghost predicate TicketsOrdered(s: State) {
    && (forall i, j :: 0 <= i < j < |s.issued| && s.issued[i].account == s.issued[j].account
                       ==> s.issued[i].number < s.issued[j].number)
    && (forall i :: 0 <= i < |s.issued| ==>
          s.issued[i].account in s.tables.accounts
          && 1 <= s.issued[i].number <= s.tables.accounts[s.issued[i].account].sequence)
  }

  /** Every stored row used an issued number, and no number is used twice. */
  ghost predicate RowsUnique(s: State) {
    && (forall key :: key in s.tables.feed ==> Ticket(key.0, s.tables.feed[key].sequence) in s.issued)
    && (forall k, l :: k in s.tables.feed && l in s.tables.feed && k != l && k.0 == l.0
                       ==> s.tables.feed[k].sequence != s.tables.feed[l].sequence)
  }

  /** A number held by a caller is issued, held by nobody else and not yet stored. */
  ghost predicate TicketsUnused(s: State) {
    && (forall c :: c in s.publishing ==> s.publishing[c] in s.issued)
    && (forall c, d :: c in s.publishing && d in s.publishing && c != d ==> s.publishing[c] != s.publishing[d])
    && (forall c, key :: c in s.publishing && key in s.tables.feed
                         ==> s.publishing[c] != Ticket(key.0, s.tables.feed[key].sequence))
  }

  ghost predicate Inv(s: State) {
    TicketsOrdered(s) && RowsUnique(s) && TicketsUnused(s)
  }

  /** No step, not even a stale write-back, lowers a counter or forgets an account. */
  lemma CountersOnlyGrow(s: State, step: Step)
    ensures forall id :: id in s.tables.accounts ==>
              id in Apply(s, step).tables.accounts
              && s.tables.accounts[id].sequence <= Apply(s, step).tables.accounts[id].sequence
  {}

  lemma KeepsTickets(s: State, step: Step)
    requires TicketsOrdered(s) && FitsU32(Apply(s, step))
    ensures TicketsOrdered(Apply(s, step))
  {
    CountersOnlyGrow(s, step);
    var s' := Apply(s, step);
    if step.PublishBump? && s'.issued != s.issued {
      var id := step.id;
      assert s'.tables.accounts[id].sequence == s.tables.accounts[id].sequence + 1 <= U32_MAX;
      assert s'.issued == s.issued + [Ticket(id, s.tables.accounts[id].sequence + 1)];
    }
  }

  lemma NewTicketIsNew(s: State, id: string)
    requires TicketsOrdered(s) && id in s.tables.accounts
    ensures Ticket(id, s.tables.accounts[id].sequence + 1) !in s.issued
  {}

  /** With an unused number and a fresh feed id, `INSERT OR REPLACE` replaces nothing. */
  lemma PutEvictsNothing(s: State, c: nat, feedId: string, body: string)
    requires Inv(s) && c in s.publishing && (s.publishing[c].account, feedId) !in s.tables.feed
    ensures var ticket := s.publishing[c];
            PutFeedItem(s.tables, ticket.account, feedId, Item(ticket.number, body, false)).feed
            == s.tables.feed[(ticket.account, feedId) := Item(ticket.number, body, false)]
  {}

  /** The other steps store no row and hand out no number. */
  lemma OtherSteps(s: State, step: Step)
    requires !step.PublishBump? && !step.PublishPut?
    ensures var s' := Apply(s, step);
            && s'.issued == s.issued
            && s'.tables.feed.Keys == s.tables.feed.Keys
            && (forall key :: key in s.tables.feed ==> s'.tables.feed[key].sequence == s.tables.feed[key].sequence)
            && (forall c :: c in s'.publishing ==> c in s.publishing && s'.publishing[c] == s.publishing[c])
  {}

  lemma {:induction false} OtherStepsKeepInv(s: State, step: Step)
    requires Inv(s) && TicketsOrdered(Apply(s, step)) && !step.PublishBump? && !step.PublishPut?
    ensures Inv(Apply(s, step))
  {
    OtherSteps(s, step);
    var s' := Apply(s, step);
    assert RowsUnique(s');
    assert TicketsUnused(s');
  }

  /** One more issued number, held by one more caller, stored nowhere. */
  lemma NewHolderKeepsUnused(s: State, s': State, c: nat, ticket: Ticket)
    requires RowsUnique(s) && TicketsUnused(s) && ticket !in s.issued
    requires s'.issued == s.issued + [ticket] && s'.publishing == s.publishing[c := ticket]
    requires s'.tables.feed == s.tables.feed
    ensures RowsUnique(s') && TicketsUnused(s')
  {}

  lemma BumpKeepsInv(s: State, c: nat, id: string)
    requires Inv(s) && id in s.tables.accounts && c !in s.publishing
    requires s.tables.accounts[id].sequence < U32_MAX
    requires TicketsOrdered(Apply(s, PublishBump(c, id)))
    ensures Inv(Apply(s, PublishBump(c, id)))
  {
    NewTicketIsNew(s, id);
    var s' := Apply(s, PublishBump(c, id));
    var ticket := Ticket(id, s.tables.accounts[id].sequence + 1);
    assert s'.issued == s.issued + [ticket];
    NewHolderKeepsUnused(s, s', c, ticket);
  }

  lemma PutKeepsRows(s: State, c: nat, feedId: string, body: string)
    requires Inv(s) && c in s.publishing && (s.publishing[c].account, feedId) !in s.tables.feed
    ensures RowsUnique(Apply(s, PublishPut(c, feedId, body)))
  {}

  lemma PutKeepsUnused(s: State, c: nat, feedId: string, body: string)
    requires Inv(s) && c in s.publishing && (s.publishing[c].account, feedId) !in s.tables.feed
    ensures TicketsUnused(Apply(s, PublishPut(c, feedId, body)))
  {}

  lemma {:induction false} KeepsInv(s: State, step: Step)
    requires Inv(s) && FitsU32(Apply(s, step))
    ensures Inv(Apply(s, step))
  {
    KeepsTickets(s, step);
    if Apply(s, step) == s {
    } else if step.PublishBump? {
      assert Apply(s, step).tables.accounts[step.id].sequence <= U32_MAX;
      BumpKeepsInv(s, step.caller, step.id);
    } else if step.PublishPut? {
      PutKeepsRows(s, step.caller, step.feedId, step.body);
      PutKeepsUnused(s, step.caller, step.feedId, step.body);
    } else {
      OtherStepsKeepInv(s, step);
    }
  }

  lemma {:induction false} FitsBefore(steps: seq<Step>, n: nat)
    requires n <= |steps| && FitsU32(Run(steps))
    ensures FitsU32(Run(steps[..n]))
    decreases |steps|
  {
    if n < |steps| {
      CountersOnlyGrow(Run(steps[..|steps| - 1]), steps[|steps| - 1]);
      FitsBefore(steps[..|steps| - 1], n);
      assert steps[..|steps| - 1][..n] == steps[..n];
    } else {
      assert steps[..n] == steps;
    }
  }

  lemma {:induction false} RunKeepsInv(steps: seq<Step>)
    requires FitsU32(Run(steps))
    ensures Inv(Run(steps))
  {
    if steps != [] {
      FitsBefore(steps, |steps| - 1);
      RunKeepsInv(steps[..|steps| - 1]);
      KeepsInv(Run(steps[..|steps| - 1]), steps[|steps| - 1]);
    }
  }

  // ----- The 32-bit limit -----

  /** What an account's counter says about the numbers issued for it, whatever its size. */
  ghost predicate CounterTells(s: State, id: string) {
    if id !in s.tables.accounts then forall t :: t in s.issued ==> t.account != id else
    var sequence := s.tables.accounts[id].sequence;
    && (sequence <= U32_MAX ==> forall t :: t in s.issued && t.account == id ==> t.number <= sequence)
    && (sequence >= U32_MAX ==> Ticket(id, U32_MAX) in s.issued)
    && (sequence > U32_MAX ==> Ticket(id, 0) in s.issued)
  }

  /** Whoever is about to write an account back read it while it existed. */
  ghost predicate UpdatesKnown(s: State) {
    forall c :: c in s.updating ==> s.updating[c].0 in s.tables.accounts
  }

  lemma KeepsUpdatesKnown(s: State, step: Step)
    requires UpdatesKnown(s)
    ensures UpdatesKnown(Apply(s, step))
  {
    CountersOnlyGrow(s, step);
  }

  lemma BumpTells(s: State, c: nat, id: string)
    requires CounterTells(s, id) && id in s.tables.accounts && c !in s.publishing
    ensures CounterTells(Apply(s, PublishBump(c, id)), id)
  {
    var s', sequence := Apply(s, PublishBump(c, id)), s.tables.accounts[id].sequence + 1;
    assert s'.issued == s.issued + [Ticket(id, AsU32(sequence))];
    assert s'.issued[|s.issued|] == Ticket(id, AsU32(sequence));
    assert s'.tables.accounts[id].sequence == sequence;
  }

  /** Steps other than a bump of the account leave its counter and its numbers alone. */
  lemma OthersTell(s: State, step: Step, id: string)
    requires CounterTells(s, id) && UpdatesKnown(s) && !(step.PublishBump? && step.id == id)
    ensures CounterTells(Apply(s, step), id)
  {
    var s' := Apply(s, step);
    assert forall t :: t in s'.issued && t.account == id <==> t in s.issued && t.account == id;
    if id in s.tables.accounts {
      assert s'.tables.accounts[id].sequence == s.tables.accounts[id].sequence;
    } else if id in s'.tables.accounts {
      assert s'.tables.accounts[id].sequence == 0;
    }
  }

  lemma {:induction false} RunTells(steps: seq<Step>, id: string)
    ensures UpdatesKnown(Run(steps)) && CounterTells(Run(steps), id)
  {
    if steps != [] {
      var s, step := Run(steps[..|steps| - 1]), steps[|steps| - 1];
      RunTells(steps[..|steps| - 1], id);
      KeepsUpdatesKnown(s, step);
      if !(step.PublishBump? && step.id == id) {
        OthersTell(s, step, id);
      } else if id in s.tables.accounts && step.caller !in s.publishing {
        BumpTells(s, step.caller, id);
      }
    }
  }

  /** Over every interleaving, issued numbers are distinct and increasing, feed sequences unique and
      none above its account's counter, if and only if no counter has passed the 32-bit limit. */
  lemma RunInvIff(steps: seq<Step>)
    ensures Inv(Run(steps)) <==> FitsU32(Run(steps))
  {
    if FitsU32(Run(steps)) {
      RunKeepsInv(steps);
    } else {
      var s := Run(steps);
      var id :| id in s.tables.accounts && s.tables.accounts[id].sequence > U32_MAX;
      RunTells(steps, id);
      var i :| 0 <= i < |s.issued| && s.issued[i] == Ticket(id, 0);
      assert !TicketsOrdered(s);
    }
  }

  lemma BumpTicket(s: State, c: nat, id: string)
    requires id in s.tables.accounts && c !in s.publishing
    ensures var ticket := Apply(s, PublishBump(c, id)).publishing[c];
            && ticket.number == AsU32(s.tables.accounts[id].sequence + 1) <= U32_MAX
            && (s.tables.accounts[id].sequence < U32_MAX ==> ticket.number == s.tables.accounts[id].sequence + 1)
  {}

  /** Over every interleaving, a bump hands out a number above all earlier ones of the account if
      and only if its counter was below `u32::MAX`. */
  lemma NextNumberIncreasesIff(steps: seq<Step>, c: nat, id: string)
    requires id in Run(steps).tables.accounts && c !in Run(steps).publishing
    ensures var s := Run(steps);
            var ticket := Apply(s, PublishBump(c, id)).publishing[c];
            (forall t :: t in s.issued && t.account == id ==> t.number < ticket.number)
            <==> s.tables.accounts[id].sequence < U32_MAX
  {
    RunTells(steps, id);
    BumpTicket(Run(steps), c, id);
  }

  lemma ZeroBreaksOrder(s: State, i: nat)
    requires i < |s.issued| && s.issued[i].number == 0
    ensures !TicketsOrdered(s)
  {}

  /** Only a bump takes a counter past the limit, and it hands out number 0. */
  lemma PastLimitByBump(s: State, step: Step)
    requires UpdatesKnown(s) && FitsU32(s) && !FitsU32(Apply(s, step))
    ensures step.PublishBump? && Apply(s, step).issued == s.issued + [Ticket(step.id, 0)]
  {
    var s' := Apply(s, step);
    var id :| id in s'.tables.accounts && s'.tables.accounts[id].sequence > U32_MAX;
    if step.PublishBump? {
      assert id == step.id && s'.tables.accounts[id].sequence == U32_MAX + 1;
    }
  }

  /** From a state within the 32-bit limit, a step keeps all of this if and only if it stays there. */
  lemma KeepsInvIff(s: State, step: Step)
    requires Inv(s) && FitsU32(s) && UpdatesKnown(s)
    ensures Inv(Apply(s, step)) <==> FitsU32(Apply(s, step))
  {
    if FitsU32(Apply(s, step)) {
      KeepsInv(s, step);
    } else {
      PastLimitByBump(s, step);
      ZeroBreaksOrder(Apply(s, step), |s.issued|);
    }
  }

  // ----- Accounts -----

  /** An account is stored unless another one has its owner. A new row is stored as given, an existing
      one keeps its sequence and its count; no other row changes. */
  lemma PutAccountOutcome(t: Tables, id: string, a: Account)
    ensures PutAccount(t, id, a).Err?
            <==> exists other :: other in t.accounts && other != id && t.accounts[other].owner == a.owner
    ensures PutAccount(t, id, a).Ok? ==>
              var t' := PutAccount(t, id, a).value;
              && t'.feed == t.feed && t'.accounts.Keys == t.accounts.Keys + {id}
              && (forall other :: other in t.accounts && other != id ==> t'.accounts[other] == t.accounts[other])
              && t'.accounts[id].owner == a.owner && t'.accounts[id].profile == a.profile
              && (id !in t.accounts ==> t'.accounts[id] == a)
              && (id in t.accounts ==> t'.accounts[id].sequence == t.accounts[id].sequence
                                       && t'.accounts[id].subscriberCount == t.accounts[id].subscriberCount)
  {}

  ghost predicate OwnersUnique(t: Tables) {
    forall a, b :: a in t.accounts && b in t.accounts && t.accounts[a].owner == t.accounts[b].owner ==> a == b
  }

  lemma KeepsOwnersUnique(s: State, step: Step)
    requires OwnersUnique(s.tables)
    ensures OwnersUnique(Apply(s, step).tables)
  {
    if step.Register? { PutAccountOutcome(s.tables, step.id, Account(step.owner, step.profile, 0, 0)); }
    if step.UpdateWrite? && step.caller in s.updating {
      var (id, copy) := s.updating[step.caller];
      PutAccountOutcome(s.tables, id, copy.(profile := step.profile));
    }
  }

  /** Over every interleaving, no two accounts have one owner. */
  lemma {:induction false} RunOwnersUnique(steps: seq<Step>)
    ensures OwnersUnique(Run(steps).tables)
  {
    if steps != [] {
      RunOwnersUnique(steps[..|steps| - 1]);
      KeepsOwnersUnique(Run(steps[..|steps| - 1]), steps[|steps| - 1]);
    }
  }

  /** Over every interleaving, `update_account` stores the new profile and changes nothing else, when
      nobody comes between its reading and its write-back. */
  lemma UpdateTakesEffect(steps: seq<Step>, c: nat, id: string, profile: string)
    requires id in Run(steps).tables.accounts
    ensures var t := Run(steps).tables;
            Run(steps + [UpdateRead(c, id)] + [UpdateWrite(c, profile)]).tables
            == t.(accounts := t.accounts[id := t.accounts[id].(profile := profile)])
  {
    var s := Run(steps);
    var copy := s.tables.accounts[id];
    RunOwnersUnique(steps);
    RunSnoc(steps, UpdateRead(c, id));
    RunSnoc(steps + [UpdateRead(c, id)], UpdateWrite(c, profile));
    assert !OwnerTaken(s.tables, id, copy.owner);
  }

  /** A bump raises one counter by one and leaves everything else alone. */
  lemma BumpOutcome(t: Tables, id: string)
    requires id in t.accounts
    ensures var t' := Bump(t, id);
            && t'.feed == t.feed && t'.accounts.Keys == t.accounts.Keys
            && (forall other :: other in t.accounts && other != id ==> t'.accounts[other] == t.accounts[other])
            && t'.accounts[id].sequence == t.accounts[id].sequence + 1
            && t'.accounts[id].owner == t.accounts[id].owner && t'.accounts[id].profile == t.accounts[id].profile
            && t'.accounts[id].subscriberCount == t.accounts[id].subscriberCount
  {}

  // ----- Contents of items -----

  /** The item is stored, and exactly the account's other items with its number are gone. */
  ghost predicate StoredLosingNumber(was: map<(string, string), Item>, now: map<(string, string), Item>,
                                     id: string, feedId: string, item: Item) {
    && (id, feedId) in now && now[(id, feedId)] == item
    && (forall key :: key in was ==> (key in now <==> !(key.0 == id && was[key].sequence == item.sequence)))
    && (forall key :: key in now && key != (id, feedId) ==> key in was && now[key] == was[key])
  }

  lemma PutStores(t: Tables, id: string, feedId: string, item: Item)
    requires (id, feedId) !in t.feed
    ensures StoredLosingNumber(t.feed, PutFeedItem(t, id, feedId, item).feed, id, feedId, item)
  {}

  /** Storing under a held number stores the given body, unretracted, and uses the number up. */
  lemma PublishPutOutcome(s: State, c: nat, feedId: string, body: string)
    requires c in s.publishing && (s.publishing[c].account, feedId) !in s.tables.feed
    ensures var ticket, s' := s.publishing[c], Apply(s, PublishPut(c, feedId, body));
            && StoredLosingNumber(s.tables.feed, s'.tables.feed, ticket.account, feedId, Item(ticket.number, body, false))
            && s'.tables.accounts == s.tables.accounts && s'.publishing == s.publishing - {c}
  {
    PutStores(s.tables, s.publishing[c].account, feedId, Item(s.publishing[c].number, body, false));
  }

  /** A step never changes a stored item, except that retracting it sets its flag. */
  lemma ContentsStay(s: State, step: Step, key: (string, string))
    requires key in s.tables.feed && key in Apply(s, step).tables.feed
    ensures var was, now := s.tables.feed[key], Apply(s, step).tables.feed[key];
            now == if step == Retract(key.0, key.1) then was.(isRetracted := true) else was
  {}

  // ----- When stored items stay -----

  /** The step stores an item under the number of another item of the account. */
  predicate Evicts(s: State, step: Step, key: (string, string)) {
    && step.PublishPut? && step.caller in s.publishing && (s.publishing[step.caller].account, step.feedId) !in s.tables.feed
    && key in s.tables.feed && s.publishing[step.caller] == Ticket(key.0, s.tables.feed[key].sequence)
  }

  predicate StoredUnder(s: State, key: (string, string), number: nat) {
    key in s.tables.feed && s.tables.feed[key].sequence == number
  }

  lemma StaysStoredStep(s: State, step: Step, key: (string, string), number: nat)
    requires StoredUnder(s, key, number)
    ensures StoredUnder(Apply(s, step), key, number) <==> !Evicts(s, step, key)
  {
    if !step.PublishBump? && !step.PublishPut? { OtherSteps(s, step); }
  }

  ghost predicate StepAt(steps: seq<Step>, trace: seq<State>, k: nat)
    requires k < |steps| && |trace| == |steps| + 1
  {
    trace[k + 1] == Apply(trace[k], steps[k])
  }

  /** `trace[k]` is the state before step `k`. */
  ghost predicate IsTrace(steps: seq<Step>, trace: seq<State>) {
    && |trace| == |steps| + 1 && trace[0] == INITIAL
    && forall k :: 0 <= k < |steps| ==> StepAt(steps, trace, k)
  }

  lemma {:induction false} TraceIsRun(steps: seq<Step>, trace: seq<State>, n: nat)
    requires IsTrace(steps, trace) && n <= |steps|
    ensures trace[n] == Run(steps[..n])
  {
    if n > 0 {
      TraceIsRun(steps, trace, n - 1);
      assert StepAt(steps, trace, n - 1);
      assert steps[..n] == steps[..n - 1] + [steps[n - 1]];
      RunSnoc(steps[..n - 1], steps[n - 1]);
    }
  }

  /** Over every interleaving, from step `n` to step `m` an item stays stored under its number if and
      only if nobody stores another item of the account under that number. */
  lemma {:induction false} ItemStaysIff(steps: seq<Step>, trace: seq<State>, n: nat, m: nat,
                                        key: (string, string), number: nat)
    requires IsTrace(steps, trace) && n <= m <= |steps| && StoredUnder(trace[n], key, number)
    ensures (forall k :: n <= k <= m ==> StoredUnder(trace[k], key, number))
            <==> forall k :: n <= k < m ==> !Evicts(trace[k], steps[k], key)
    decreases m
  {
    if n < m {
      ItemStaysIff(steps, trace, n, m - 1, key, number);
      assert StepAt(steps, trace, m - 1);
      if StoredUnder(trace[m - 1], key, number) {
        StaysStoredStep(trace[m - 1], steps[m - 1], key, number);
      }
    }
  }

  /** Hence, while counters fit in 32 bits, a stored item is never evicted and never renumbered. */
  lemma ItemsSurvive(steps: seq<Step>, trace: seq<State>, n: nat, m: nat, key: (string, string))
    requires IsTrace(steps, trace) && n <= m <= |steps| && FitsU32(trace[m]) && key in trace[n].tables.feed
    ensures StoredUnder(trace[m], key, trace[n].tables.feed[key].sequence)
  {
    forall k | n <= k < m ensures !Evicts(trace[k], steps[k], key) {
      TraceIsRun(steps, trace, m);
      TraceIsRun(steps, trace, k);
      FitsBefore(steps[..m], k);
      assert steps[..m][..k] == steps[..k];
      RunKeepsInv(steps[..k]);
    }
    ItemStaysIff(steps, trace, n, m, key, trace[n].tables.feed[key].sequence);
  }

  // ----- Feed sequences -----

  /** A number drawn for an account is at most its counter. */
  predicate Drawn(s: State, account: string, number: nat) {
    account in s.tables.accounts && number <= s.tables.accounts[account].sequence
  }

  ghost predicate AllDrawn(s: State) {
    && (forall c :: c in s.publishing ==> Drawn(s, s.publishing[c].account, s.publishing[c].number))
    && (forall key :: key in s.tables.feed ==> Drawn(s, key.0, s.tables.feed[key].sequence))
  }

  ghost predicate NumbersUnique(s: State) {
    forall k, l :: k in s.tables.feed && l in s.tables.feed && k != l && k.0 == l.0
                   ==> s.tables.feed[k].sequence != s.tables.feed[l].sequence
  }

  lemma KeepsAllDrawn(s: State, step: Step)
    requires AllDrawn(s)
    ensures AllDrawn(Apply(s, step))
  {
    CountersOnlyGrow(s, step);
    if !step.PublishBump? && !step.PublishPut? { OtherSteps(s, step); }
  }

  lemma KeepsNumbersUnique(s: State, step: Step)
    requires NumbersUnique(s)
    ensures NumbersUnique(Apply(s, step))
  {
    if !step.PublishBump? && !step.PublishPut? { OtherSteps(s, step); }
  }

  lemma {:induction false} RunNumbers(steps: seq<Step>)
    ensures AllDrawn(Run(steps)) && NumbersUnique(Run(steps))
  {
    if steps != [] {
      RunNumbers(steps[..|steps| - 1]);
      KeepsAllDrawn(Run(steps[..|steps| - 1]), steps[|steps| - 1]);
      KeepsNumbersUnique(Run(steps[..|steps| - 1]), steps[|steps| - 1]);
    }
  }

  /** After every interleaving, even past the 32-bit limit, an item's sequence is at most its
      account's counter and belongs to no other item of the account; within the limit it is at
      least 1. */
  lemma FeedSequences(steps: seq<Step>, key: (string, string), other: (string, string))
    requires key in Run(steps).tables.feed && other in Run(steps).tables.feed
    ensures var t := Run(steps).tables;
            && key.0 in t.accounts && t.feed[key].sequence <= t.accounts[key.0].sequence
            && (key != other && key.0 == other.0 ==> t.feed[key].sequence != t.feed[other].sequence)
            && (FitsU32(Run(steps)) ==> 1 <= t.feed[key].sequence)
  {
    RunNumbers(steps);
    var s := Run(steps);
    assert Drawn(s, key.0, s.tables.feed[key].sequence);
    if FitsU32(s) {
      RunKeepsInv(steps);
      assert Ticket(key.0, s.tables.feed[key].sequence) in s.issued;
    }
  }

  // ----- What happens past the limit -----

  /** One account, counter at `n`, nobody at work. */
  ghost predicate Reached(s: State, id: string, n: nat, feed: map<(string, string), Item>) {
    id in s.tables.accounts && s.tables.accounts[id].sequence == n && s.publishing == map[] && s.tables.feed == feed
  }

  lemma FirstItem(id: string, feedId: string, body: string) returns (steps: seq<Step>)
    ensures Reached(Run(steps), id, 1, map[(id, feedId) := Item(1, body, false)])
  {
    steps := [Register(id, "owner", "")];
    RunSnoc([], Register(id, "owner", ""));
    assert Run(steps).tables.accounts == map[id := Account("owner", "", 0, 0)];
    RunSnoc(steps, PublishBump(0, id));
    steps := steps + [PublishBump(0, id)];
    RunSnoc(steps, PublishPut(0, feedId, body));
    steps := steps + [PublishPut(0, feedId, body)];
  }

  /** Publications that fail after the bump use up numbers. */
  lemma {:induction false} UseUp(steps: seq<Step>, id: string, n: nat, more: nat, feed: map<(string, string), Item>)
    returns (steps': seq<Step>)
    requires Reached(Run(steps), id, n, feed)
    ensures Reached(Run(steps'), id, n + more, feed)
    decreases more
  {
    if more == 0 {
      steps' := steps;
    } else {
      steps' := UseUp(steps, id, n, more - 1, feed);
      RunSnoc(steps', PublishBump(0, id));
      steps' := steps' + [PublishBump(0, id)];
      RunSnoc(steps', PublishAbandon(0));
      steps' := steps' + [PublishAbandon(0)];
    }
  }

  /** There is a run in which a publication past the limit evicts an earlier item: `INSERT OR
      REPLACE` under the number 1 again deletes the item that had it. */
  lemma WrapEvicts(id: string, first: string, second: string, body: string) returns (n: nat, steps: seq<Step>)
    requires first != second
    ensures n <= |steps| && (id, first) in Run(steps[..n]).tables.feed
    ensures (id, first) !in Run(steps).tables.feed && (id, second) in Run(steps).tables.feed
  {
    var feed := map[(id, first) := Item(1, body, false)];
    var before := FirstItem(id, first, body);
    before := UseUp(before, id, 1, U32_MAX, feed);
    n := |before|;
    RunSnoc(before, PublishBump(0, id));
    steps := before + [PublishBump(0, id)];
    assert Run(steps).publishing == map[0 := Ticket(id, 1)];
    RunSnoc(steps, PublishPut(0, second, body));
    steps := steps + [PublishPut(0, second, body)];
    assert steps[..n] == before;
    assert Run(before).tables.feed == feed;
  }

  // ----- The calls one after another, on the tables themselves -----

  /** Owners are unique; items are numbered within their account's counter, no number twice. */
  ghost predicate Consistent(t: Tables) {
    && (forall a, b :: a in t.accounts && b in t.accounts && t.accounts[a].owner == t.accounts[b].owner ==> a == b)
    && (forall k :: k in t.feed ==> k.0 in t.accounts && t.feed[k].sequence <= t.accounts[k.0].sequence)
    && (forall k, l :: k in t.feed && l in t.feed && k != l && k.0 == l.0 ==> t.feed[k].sequence != t.feed[l].sequence)
  }

  /** Where nothing clashes, `INSERT OR REPLACE` inserts. */
  lemma PutWithoutClash(t: Tables, id: string, feedId: string, item: Item)
    requires forall key :: key in t.feed ==> !Clashes(t, key, id, feedId, item.sequence)
    ensures PutFeedItem(t, id, feedId, item) == t.(feed := t.feed[(id, feedId) := item])
  {}

  lemma BumpStaysConsistent(t: Tables, id: string)
    requires Consistent(t) && id in t.accounts
    ensures Consistent(Bump(t, id))
  {}

  lemma AddStaysConsistent(t: Tables, id: string, feedId: string, item: Item)
    requires Consistent(t) && id in t.accounts && item.sequence == t.accounts[id].sequence
    requires forall key :: key in t.feed && key.0 == id ==> t.feed[key].sequence < item.sequence
    ensures Consistent(t.(feed := t.feed[(id, feedId) := item]))
  {}

  /** Storing under the number just bumped adds one item and loses none. */
  lemma {:induction false} BumpThenPut(t: Tables, id: string, feedId: string, item: Item)
    requires Consistent(t) && id in t.accounts && item.sequence == t.accounts[id].sequence + 1
    requires (id, feedId) !in t.feed
    ensures var t' := PutFeedItem(Bump(t, id), id, feedId, item);
            Consistent(t') && t'.feed == t.feed[(id, feedId) := item]
  {
    var bumped := Bump(t, id);
    BumpStaysConsistent(t, id);
    PutWithoutClash(bumped, id, feedId, item);
    AddStaysConsistent(bumped, id, feedId, item);
  }

  /** Bump and store, on tables. */
  lemma PublishedTables(t: Tables, id: string, feedId: string, body: string)
    requires Consistent(t) && id in t.accounts && (id, feedId) !in t.feed
    ensures var item := Item(AsU32(t.accounts[id].sequence + 1), body, false);
            var t' := PutFeedItem(Bump(t, id), id, feedId, item);
            && StoredLosingNumber(t.feed, t'.feed, id, feedId, item)
            && (t.accounts[id].sequence < U32_MAX ==>
                  Consistent(t') && item.sequence == t.accounts[id].sequence + 1 && t'.feed == t.feed[(id, feedId) := item])
  {
    var item := Item(AsU32(t.accounts[id].sequence + 1), body, false);
    PutStores(Bump(t, id), id, feedId, item);
    if t.accounts[id].sequence < U32_MAX { BumpThenPut(t, id, feedId, item); }
  }

  class ChannelTables {
    var accounts: map<string, Account>
    var feed: map<(string, string), Item>

    function Contents(): Tables
      reads this
    {
      Tables(accounts, feed)
    }

    constructor ()
      ensures Contents() == Tables(map[], map[]) && Consistent(Contents())
    {
      accounts, feed := map[], map[];
    }

    method GetAccountByOwner(owner: string) returns (id: Option<string>)
      ensures id.Some? ==> id.value in accounts && accounts[id.value].owner == owner
      ensures id.None? ==> forall a :: a in accounts ==> accounts[a].owner != owner
    {
      if exists a :: a in accounts && accounts[a].owner == owner {
        var a :| a in accounts && accounts[a].owner == owner;
        return Some(a);
      }
      return None;
    }

    /** Fails on an unknown account. Otherwise the tables stay consistent, only that counter moves,
        and below the 32-bit limit the number is above all numbers stored for the account. */
    method BumpAccountSequence(id: string) returns (next: Result<nat, string>)
      modifies this`accounts
      ensures next.Ok? <==> id in old(accounts)
      ensures next.Err? ==> Contents() == old(Contents())
      ensures next.Ok? ==> Contents() == Bump(old(Contents()), id)
                           && next.value == AsU32(old(accounts)[id].sequence + 1)
      ensures next.Ok? && Consistent(old(Contents())) ==> Consistent(Contents())
      ensures next.Ok? && Consistent(old(Contents())) && old(accounts)[id].sequence < U32_MAX ==>
                forall key :: key in feed && key.0 == id ==> feed[key].sequence < next.value
    {
      if id !in accounts {
        return Err("no such account");
      }
      if Consistent(Contents()) { BumpStaysConsistent(Contents(), id); }
      accounts := accounts[id := accounts[id].(sequence := accounts[id].sequence + 1)];
      return Ok(AsU32(accounts[id].sequence));
    }

    method StoreFeedItem(id: string, feedId: string, item: Item)
      modifies this`feed
      ensures Contents() == PutFeedItem(old(Contents()), id, feedId, item)
    {
      var clashing := set key | key in feed && Clashes(Contents(), key, id, feedId, item.sequence);
      feed := (feed - clashing)[(id, feedId) := item];
      assert feed == PutFeedItem(old(Contents()), id, feedId, item).feed;
    }

    /** `publish_feed`: bump first, then store under the number obtained. Exactly the account's
        items with that number are lost: none while the counter fits in 32 bits. */
    method PublishFeed(owner: string, localNode: string, feedId: string, body: string)
      returns (r: Result<(string, nat), string>)
      requires Consistent(Contents()) && forall key :: key in feed ==> key.1 != feedId
      modifies this
      ensures r.Err? ==> Contents() == old(Contents())
      ensures r.Err? <==> owner != localNode || forall a :: a in old(accounts) ==> old(accounts)[a].owner != owner
      ensures r.Ok? ==> r.value.0 in old(accounts) && old(accounts)[r.value.0].owner == owner
      ensures r.Ok? ==> r.value.1 == AsU32(old(accounts)[r.value.0].sequence + 1)
                        && StoredLosingNumber(old(feed), feed, r.value.0, feedId, Item(r.value.1, body, false))
      ensures r.Ok? && old(accounts)[r.value.0].sequence < U32_MAX ==>
                && r.value.1 == old(accounts)[r.value.0].sequence + 1 && Consistent(Contents())
                && feed == old(feed)[(r.value.0, feedId) := Item(r.value.1, body, false)]
    {
      var account := GetAccountByOwner(owner);
      if account.None? {
        return Err("no account for owner");
      }
      if owner != localNode {
        return Err("owner does not match local node");
      }
      var id := account.value;
      PublishedTables(Contents(), id, feedId, body);
      var next := BumpAccountSequence(id);
      StoreFeedItem(id, feedId, Item(next.value, body, false));
      r := Ok((id, next.value));
    }
  }

}
