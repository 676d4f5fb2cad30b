/**
 * The event handlers of the indexer as statements on the projected tables.  Each table is a map keyed by
 * its unique constraint; an UPDATE of a missing row changes nothing, an INSERT that violates the
 * foreign key on `circles(address)` fails the event.
 */
module Projection {
  import opened Prelude
  import opened Events

  datatype RowStatus = RowPending | RowActive | RowCompleted | RowCancelled | RowClosed

  datatype CircleRow = CircleRow(
    creator: Address, roundAmount: int, memberCount: nat, totalRounds: nat, status: RowStatus,
    currentRound: nat, createdLedger: nat, paused: bool, released: Option<int>, closeReason: Option<CloseReason>)

  datatype MemberRow = MemberRow(payoutOrder: int, joinOrder: Option<nat>, collateral: int, defaults: nat)
  datatype ContributionRow = ContributionRow(amount: int, txHash: TxHash, ledger: nat)
  datatype PayoutRow = PayoutRow(
    recipient: Address, amount: int, txHash: TxHash, ledger: nat, isExceptional: bool, defaultedCount: Option<nat>)
  datatype DefaultRow = DefaultRow(
    circle: Address, member: Address, round: nat, penalty: int, txHash: TxHash, ledger: nat)
  datatype AuditKind = AuditCancelled | AuditClosed
  datatype AuditRow = AuditRow(
    triggeredBy: Address, ledger: nat, txHash: TxHash, released: Option<int>, expected: Option<int>,
    reason: Option<CloseReason>)

  datatype MemberKey = MemberKey(circle: Address, member: Address)
  datatype ContributionKey = ContributionKey(circle: Address, member: Address, round: nat)
  datatype PayoutKey = PayoutKey(circle: Address, round: nat)
  datatype AuditKey = AuditKey(circle: Address, kind: AuditKind)

  datatype Tables = Tables(
    circles: map<Address, CircleRow>,
    members: map<MemberKey, MemberRow>,
    contributions: map<ContributionKey, ContributionRow>,
    payouts: map<PayoutKey, PayoutRow>,
    defaults: seq<DefaultRow>,
    audit: map<AuditKey, AuditRow>,
    reputation: map<Address, nat>)

  const EMPTY_TABLES := Tables(map[], map[], map[], map[], [], map[], map[])

  const FOREIGN_KEY := "foreign key"

  /** UPDATE circles SET ... WHERE address = a: no row, no change. */
  function SetStatus(t: Tables, a: Address, status: RowStatus): Tables {
    if a in t.circles then t.(circles := t.circles[a := t.circles[a].(status := status)]) else t
  }

  function SetRound(t: Tables, a: Address, round: nat): Tables {
    if a in t.circles then t.(circles := t.circles[a := t.circles[a].(currentRound := round)]) else t
  }

  function SetPaused(t: Tables, a: Address, paused: bool): Tables {
    if a in t.circles then t.(circles := t.circles[a := t.circles[a].(paused := paused)]) else t
  }

  function SetClosed(t: Tables, a: Address, released: int, reason: CloseReason): Tables {
    if a in t.circles then
      t.(circles := t.circles[a := t.circles[a].(
        status := RowClosed, released := Some(released), closeReason := Some(reason))])
    else t
  }

  function OnCircleCreated(t: Tables, e: Event): Outcome<Tables>
    requires e.payload.CircleCreated?
  {
    var p := e.payload;
    if p.circle !in t.circles then
      Done(t.(circles := t.circles[p.circle :=
        CircleRow(p.creator, 0, 0, 0, RowPending, 0, e.ledger, false, None, None)]))
    else if t.circles[p.circle].creator == NoAddress then
      Done(t.(circles := t.circles[p.circle := t.circles[p.circle].(creator := p.creator)]))
    else Done(t)
  }

  /** One row per rotation slot; a row that already exists for the member is kept. */
  function InsertRotation(rows: map<MemberKey, MemberRow>, circle: Address, members: seq<Address>, n: nat)
    : map<MemberKey, MemberRow>
    requires n <= |members|
  {
    if n == 0 then rows
    else
      var before := InsertRotation(rows, circle, members, n - 1);
      var key := MemberKey(circle, members[n - 1]);
      if key in before then before else before[key := MemberRow(n - 1, None, 0, 0)]
  }

  /** The payload checks of the initialized-event parser. */
  predicate AcceptsInitialized(p: Payload)
    requires p.Initialized?
  {
    && 2 <= p.memberCount <= 256
    && p.roundAmount > 0
    && (p.members.Some? ==> |p.members.value| == p.memberCount && Distinct(p.members.value))
  }

  function UpsertConfig(t: Tables, e: Event): map<Address, CircleRow>
    requires e.payload.Initialized?
  {
    var p := e.payload;
    if e.contractId in t.circles then
      t.circles[e.contractId := t.circles[e.contractId].(
        roundAmount := p.roundAmount, memberCount := p.memberCount, totalRounds := p.memberCount)]
    else
      t.circles[e.contractId :=
        CircleRow(NoAddress, p.roundAmount, p.memberCount, p.memberCount, RowPending, 0, e.ledger, false, None, None)]
  }

  function OnInitialized(t: Tables, e: Event): Outcome<Tables>
    requires e.payload.Initialized?
  {
    if !AcceptsInitialized(e.payload) then Failed("circle/initialized")
    else
      Done(t.(
        circles := UpsertConfig(t, e),
        members := match e.payload.members
          case None => t.members
          case Some(members) => InsertRotation(t.members, e.contractId, members, |members|)))
  }

  function OnJoined(t: Tables, e: Event): Outcome<Tables>
    requires e.payload.Joined?
  {
    var p := e.payload;
    var key := MemberKey(e.contractId, p.member);
    if p.joinOrder < 1 || p.collateral < 0 then Failed("circle/joined")
    else if key !in t.members then Failed("no circle_members row")
    else
      Done(t.(members := t.members[key :=
        t.members[key].(joinOrder := Some(p.joinOrder), collateral := p.collateral)]))
  }

  function OnContributed(t: Tables, e: Event): Outcome<Tables>
    requires e.payload.Contributed?
  {
    var p := e.payload;
    var key := ContributionKey(e.contractId, p.member, p.round);
    if e.contractId !in t.circles then Failed(FOREIGN_KEY)
    else if key in t.contributions then Done(t)
    else Done(t.(contributions := t.contributions[key := ContributionRow(p.amount, e.txHash, e.ledger)]))
  }

  function OnPaidOut(t: Tables, e: Event): Outcome<Tables>
    requires e.payload.PaidOut?
  {
    var p := e.payload;
    var key := PayoutKey(e.contractId, p.round);
    if e.contractId !in t.circles then Failed(FOREIGN_KEY)
    else
      var inserted :=
        if key in t.payouts then t
        else t.(payouts := t.payouts[key := PayoutRow(p.recipient, p.pot, e.txHash, e.ledger, false, None)]);
      Done(SetRound(inserted, e.contractId, p.round + 1))
  }

  function OnExceptionalSettlement(t: Tables, e: Event): Outcome<Tables>
    requires e.payload.ExceptionalSettlement?
  {
    var p := e.payload;
    var key := PayoutKey(e.contractId, p.round);
    if e.contractId !in t.circles then Failed(FOREIGN_KEY)
    else if key in t.payouts then
      Done(t.(payouts := t.payouts[key :=
        t.payouts[key].(isExceptional := true, defaultedCount := Some(p.defaultedCount))]))
    else
      Done(t.(payouts := t.payouts[key :=
        PayoutRow(p.recipient, p.pot, e.txHash, e.ledger, true, Some(p.defaultedCount))]))
  }

  function OnDefaulted(t: Tables, e: Event): Outcome<Tables>
    requires e.payload.Defaulted?
  {
    var p := e.payload;
    var key := MemberKey(e.contractId, p.member);
    if e.contractId !in t.circles then Failed(FOREIGN_KEY)
    else
      var inserted := t.(defaults := t.defaults
        + [DefaultRow(e.contractId, p.member, p.round, p.penalty, e.txHash, e.ledger)]);
      if key in t.members then
        Done(inserted.(members := t.members[key := t.members[key].(defaults := t.members[key].defaults + 1)]))
      else Done(inserted)
  }

  /** INSERT INTO circle_audit_events ... ON CONFLICT DO NOTHING, after the status update. */
  function WithAudit(t: Tables, key: AuditKey, row: AuditRow): Outcome<Tables> {
    if key.circle !in t.circles then Failed(FOREIGN_KEY)
    else if key in t.audit then Done(t)
    else Done(t.(audit := t.audit[key := row]))
  }

  function OnCancelled(t: Tables, e: Event): Outcome<Tables>
    requires e.payload.Cancelled?
  {
    WithAudit(SetStatus(t, e.contractId, RowCancelled),
              AuditKey(e.contractId, AuditCancelled),
              AuditRow(e.payload.caller, e.payload.atLedger, e.txHash, None, None, None))
  }

  function OnClosed(t: Tables, e: Event): Outcome<Tables>
    requires e.payload.Closed?
  {
    var p := e.payload;
    WithAudit(SetClosed(t, e.contractId, p.released, p.reason),
              AuditKey(e.contractId, AuditClosed),
              AuditRow(p.closer, e.ledger, e.txHash, Some(p.released), Some(p.expected), Some(p.reason)))
  }

  /** The handler chosen for an event; a quarantine handler always fails. */
  function Handle(t: Tables, e: Event): Outcome<Tables> {
    var route := RouteOf(e);
    if route.Quarantine? then Failed(route.reason)
    else
      match e.payload
      case CircleCreated(_, _, _) => OnCircleCreated(t, e)
      case Initialized(_, _, _, _) => OnInitialized(t, e)
      case Joined(_, _, _, _) => OnJoined(t, e)
      case Activated(_, _) => Done(SetStatus(t, e.contractId, RowActive))
      case Contributed(_, _, _, _) => OnContributed(t, e)
      case PaidOut(_, _, _, _) => OnPaidOut(t, e)
      case Defaulted(_, _, _, _, _) => OnDefaulted(t, e)
      case RoundStarted(_, round, _, _) => Done(SetRound(t, e.contractId, round))
      case ExceptionalSettlement(_, _, _, _, _) => OnExceptionalSettlement(t, e)
      case Completed(_, _) => Done(SetStatus(t, e.contractId, RowCompleted))
      case Cancelled(_, _, _) => OnCancelled(t, e)
      case Closed(_, _, _, _, _) => OnClosed(t, e)
      case Paused(_, _, _) => Done(SetPaused(t, e.contractId, true))
      case Resumed(_, _, _) => Done(SetPaused(t, e.contractId, false))
      case ScoreUpdated(member, score) => Done(t.(reputation := t.reputation[member := score]))
      case CollateralReleased(_, _, _) => Done(t)
      case Unregistered(problem) => Failed(problem)
  }

  /** Handlers applied in order, as long as none fails. */
  function Replay(t: Tables, events: seq<Event>): Outcome<Tables>
    decreases events
  {
    if events == [] then Done(t)
    else
      match Handle(t, events[0])
      case Failed(reason) => Failed(reason)
      case Done(u) => Replay(u, events[1..])
  }

  lemma {:induction false} ReplayAppend(t: Tables, a: seq<Event>, b: seq<Event>)
    ensures Replay(t, a + b)
            == match Replay(t, a) case Failed(reason) => Failed(reason) case Done(u) => Replay(u, b)
    decreases a
  {
    if a == [] {
      assert a + b == b;
    } else {
      assert (a + b)[1..] == a[1..] + b;
      if Handle(t, a[0]).Done? {
        ReplayAppend(Handle(t, a[0]).value, a[1..], b);
      }
    }
  }

  lemma {:induction false} ReplayTwo(t: Tables, e: Event, f: Event)
    ensures Replay(t, [e, f])
            == match Handle(t, e) case Failed(reason) => Failed(reason) case Done(u) => Handle(u, f)
  {
    assert [e, f][1..] == [f];
    if Handle(t, e).Done? {
      var u := Handle(t, e).value;
      assert Replay(t, [e, f]) == Replay(u, [f]);
      assert Replay(u, [f]) == if Handle(u, f).Done? then Replay(Handle(u, f).value, []) else Handle(u, f);
    }
  }

  /** Routing picks the handler of the payload's own schema when the emitter matches. */
  lemma {:induction false} HandleIs(t: Tables, e: Event)
    requires Emitter(e.payload).None? || Emitter(e.payload).value == e.contractId
    ensures match e.payload
            case CircleCreated(_, _, _) => Handle(t, e) == OnCircleCreated(t, e)
            case Initialized(_, _, _, _) => Handle(t, e) == OnInitialized(t, e)
            case Joined(_, _, _, _) => Handle(t, e) == OnJoined(t, e)
            case Activated(_, _) => Handle(t, e) == Done(SetStatus(t, e.contractId, RowActive))
            case Contributed(_, _, _, _) => Handle(t, e) == OnContributed(t, e)
            case PaidOut(_, _, _, _) => Handle(t, e) == OnPaidOut(t, e)
            case Defaulted(_, _, _, _, _) => Handle(t, e) == OnDefaulted(t, e)
            case RoundStarted(_, round, _, _) => Handle(t, e) == Done(SetRound(t, e.contractId, round))
            case ExceptionalSettlement(_, _, _, _, _) => Handle(t, e) == OnExceptionalSettlement(t, e)
            case Completed(_, _) => Handle(t, e) == Done(SetStatus(t, e.contractId, RowCompleted))
            case Cancelled(_, _, _) => Handle(t, e) == OnCancelled(t, e)
            case Closed(_, _, _, _, _) => Handle(t, e) == OnClosed(t, e)
            case Paused(_, _, _) => Handle(t, e) == Done(SetPaused(t, e.contractId, true))
            case Resumed(_, _, _) => Handle(t, e) == Done(SetPaused(t, e.contractId, false))
            case ScoreUpdated(m, score) => Handle(t, e) == Done(t.(reputation := t.reputation[m := score]))
            case CollateralReleased(_, _, _) => Handle(t, e) == Done(t)
            case Unregistered(_) => Handle(t, e).Failed?
  {
  }

  /** What no handler accepts: a payload that is malformed or not the emitter's, or a row it needs that is missing. */
  ghost predicate Refused(t: Tables, e: Event) {
    || e.payload.Unregistered?
    || (!e.payload.CircleCreated? && !e.payload.ScoreUpdated? && e.payload.circle != e.contractId)
    || match e.payload
       case Initialized(_, memberCount, roundAmount, members) =>
         || memberCount < 2 || 256 < memberCount || roundAmount <= 0
         || (members.Some? && (|members.value| != memberCount || !Distinct(members.value)))
       case Joined(_, member, joinOrder, collateral) =>
         joinOrder == 0 || collateral < 0 || MemberKey(e.contractId, member) !in t.members
       case Contributed(_, _, _, _) => e.contractId !in t.circles
       case PaidOut(_, _, _, _) => e.contractId !in t.circles
       case ExceptionalSettlement(_, _, _, _, _) => e.contractId !in t.circles
       case Defaulted(_, _, _, _, _) => e.contractId !in t.circles
       case Cancelled(_, _, _) => e.contractId !in t.circles
       case Closed(_, _, _, _, _) => e.contractId !in t.circles
       case _ => false
  }

  lemma {:induction false} RefusedExactly(t: Tables, e: Event)
    ensures Handle(t, e).Failed? <==> Refused(t, e)
  {
  }

  /**
   * The factory publishes `circle_created` after the circle's own `initialized`, but the handlers reach
   * the same tables in either order for a circle that has no row yet.
   */
  lemma {:induction false} CreatedInitializedCommute(t: Tables, created: Event, initialized: Event)
    requires created.payload.CircleCreated? && initialized.payload.Initialized?
    requires initialized.contractId == created.payload.circle == initialized.payload.circle
    requires created.ledger == initialized.ledger
    requires created.payload.creator != NoAddress
    requires created.payload.circle !in t.circles
    requires Handle(t, initialized).Done?
    ensures Replay(t, [created, initialized]).Done?
    ensures Replay(t, [created, initialized]) == Replay(t, [initialized, created])
  {
    ReplayTwo(t, created, initialized);
    ReplayTwo(t, initialized, created);
    var a := created.payload.circle;
    HandleIs(t, created);
    HandleIs(t, initialized);
    var t1, t2 := OnCircleCreated(t, created).value, OnInitialized(t, initialized).value;
    HandleIs(t1, initialized);
    HandleIs(t2, created);
    var left, right := OnInitialized(t1, initialized).value, OnCircleCreated(t2, created).value;
    assert left.circles == right.circles;
    assert left == right;
  }

  lemma {:induction false} PayoutRowsCommute(t: Tables, settled: Event, paid: Event)
    requires settled.payload.ExceptionalSettlement? && paid.payload.PaidOut?
    requires settled.contractId == paid.contractId && settled.payload.round == paid.payload.round
    requires settled.payload.recipient == paid.payload.recipient && settled.payload.pot == paid.payload.pot
    requires settled.txHash == paid.txHash && settled.ledger == paid.ledger
    requires settled.contractId in t.circles
    ensures OnExceptionalSettlement(t, settled).Done? && OnPaidOut(t, paid).Done?
    ensures OnPaidOut(OnExceptionalSettlement(t, settled).value, paid)
            == OnExceptionalSettlement(OnPaidOut(t, paid).value, settled)
    ensures OnPaidOut(OnExceptionalSettlement(t, settled).value, paid).Done?
  {
    var t1, t2 := OnExceptionalSettlement(t, settled).value, OnPaidOut(t, paid).value;
    var left, right := OnPaidOut(t1, paid).value, OnExceptionalSettlement(t2, settled).value;
    var key := PayoutKey(settled.contractId, settled.payload.round);
    if key in t.payouts {
      assert left.payouts == right.payouts;
    } else {
      assert left.payouts == right.payouts;
    }
  }

  /** `exceptional_settlement` and `payout` of one round write the same payouts row in either order. */
  lemma {:induction false} SettlementPayoutCommute(t: Tables, settled: Event, paid: Event)
    requires settled.payload.ExceptionalSettlement? && paid.payload.PaidOut?
    requires settled.contractId == settled.payload.circle == paid.contractId == paid.payload.circle
    requires settled.payload.round == paid.payload.round
    requires settled.payload.recipient == paid.payload.recipient && settled.payload.pot == paid.payload.pot
    requires settled.txHash == paid.txHash && settled.ledger == paid.ledger
    requires settled.contractId in t.circles
    ensures Replay(t, [settled, paid]).Done?
    ensures Replay(t, [settled, paid]) == Replay(t, [paid, settled])
  {
    ReplayTwo(t, settled, paid);
    ReplayTwo(t, paid, settled);
    PayoutRowsCommute(t, settled, paid);
    HandleIs(t, settled);
    HandleIs(t, paid);
    HandleIs(OnExceptionalSettlement(t, settled).value, paid);
    HandleIs(OnPaidOut(t, paid).value, settled);
  }
}
