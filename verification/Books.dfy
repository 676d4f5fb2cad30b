/**
 * What every projected column says about the event log.  The handlers update tables step by step; here each
 * table is read off the whole log at once, and the two readings are proved equal.
 */
module Books {
  import opened Prelude
  import opened Events
  import opened Projection

  function First(events: seq<Event>, p: Event -> bool): (r: Option<Event>)
    ensures r.Some? ==> p(r.value)
  {
    if events == [] then None
    else
      var before := First(events[..|events| - 1], p);
      if before.Some? then before else if p(events[|events| - 1]) then Some(events[|events| - 1]) else None
  }

  function Last(events: seq<Event>, p: Event -> bool): (r: Option<Event>)
    ensures r.Some? ==> p(r.value)
  {
    if events == [] then None
    else if p(events[|events| - 1]) then Some(events[|events| - 1])
    else Last(events[..|events| - 1], p)
  }

  lemma {:induction false} Snoc(events: seq<Event>, e: Event, p: Event -> bool)
    ensures First(events + [e], p) == if First(events, p).Some? then First(events, p) else if p(e) then Some(e) else None
    ensures Last(events + [e], p) == if p(e) then Some(e) else Last(events, p)
  {
    assert (events + [e])[..|events|] == events;
  }

  /** One more event that no handler refuses. */
  ghost predicate Handled(t: Tables, e: Event, u: Tables) {
    Handle(t, e) == Done(u)
  }

  predicate IsPayout(e: Event) {
    e.payload.PaidOut? || e.payload.ExceptionalSettlement?
  }

  predicate IsAudited(e: Event) {
    e.payload.Cancelled? || e.payload.Closed?
  }

  predicate IsMembership(e: Event) {
    e.payload.Initialized? || e.payload.Joined? || e.payload.Defaulted?
  }

  ghost predicate Framed(t: Tables, e: Event, u: Tables) {
    && (u.circles == t.circles || !(e.payload.Contributed? || e.payload.ScoreUpdated? || e.payload.CollateralReleased?))
    && (u.members == t.members || IsMembership(e))
    && (u.contributions == t.contributions || e.payload.Contributed?)
    && (u.payouts == t.payouts || IsPayout(e))
    && (u.defaults == t.defaults || IsMembership(e))
    && (u.audit == t.audit || IsAudited(e))
    && (u.reputation == t.reputation || e.payload.ScoreUpdated?)
  }

  /** The circles a creation event leaves: a new row, a filled-in creator, or no change. */
  function CreatedRows(rows: map<Address, CircleRow>, e: Event): map<Address, CircleRow>
    requires e.payload.CircleCreated?
  {
    var a := e.payload.circle;
    if a !in rows then rows[a := CircleRow(e.payload.creator, 0, 0, 0, RowPending, 0, e.ledger, false, None, None)]
    else if rows[a].creator == NoAddress then rows[a := rows[a].(creator := e.payload.creator)]
    else rows
  }

  lemma {:induction false} CreatedEffect(t: Tables, e: Event, u: Tables)
    requires e.payload.CircleCreated? && OnCircleCreated(t, e) == Done(u)
    ensures u == t.(circles := CreatedRows(t.circles, e))
  {
  }

  lemma {:induction false} StatusUpdated(t: Tables, a: Address, status: RowStatus, b: Address)
    ensures SetStatus(t, a, status) == t.(circles := SetStatus(t, a, status).circles)
    ensures RowOf(SetStatus(t, a, status).circles, b)
         == if b == a && a in t.circles then Some(t.circles[a].(status := status)) else RowOf(t.circles, b)
  {
  }

  lemma {:induction false} RoundUpdated(t: Tables, a: Address, round: nat, b: Address)
    ensures SetRound(t, a, round) == t.(circles := SetRound(t, a, round).circles)
    ensures RowOf(SetRound(t, a, round).circles, b)
         == if b == a && a in t.circles then Some(t.circles[a].(currentRound := round)) else RowOf(t.circles, b)
  {
  }

  lemma {:induction false} PauseUpdated(t: Tables, a: Address, paused: bool, b: Address)
    ensures SetPaused(t, a, paused) == t.(circles := SetPaused(t, a, paused).circles)
    ensures RowOf(SetPaused(t, a, paused).circles, b)
         == if b == a && a in t.circles then Some(t.circles[a].(paused := paused)) else RowOf(t.circles, b)
  {
  }

  function RowOf(rows: map<Address, CircleRow>, a: Address): Option<CircleRow> {
    if a in rows then Some(rows[a]) else None
  }

  /** What an event does to one circle's row. */
  function NextRow(row: Option<CircleRow>, e: Event, a: Address): (next: Option<CircleRow>)
    ensures row.Some? ==> next.Some?
  {
    if e.payload.CircleCreated? then
      if e.payload.circle != a then row
      else if row.None? then Some(CircleRow(e.payload.creator, 0, 0, 0, RowPending, 0, e.ledger, false, None, None))
      else if row.value.creator == NoAddress then Some(row.value.(creator := e.payload.creator)) else row
    else if e.contractId != a then row
    else if e.payload.Initialized? then
      var n := e.payload.memberCount;
      if row.None? then Some(CircleRow(NoAddress, e.payload.roundAmount, n, n, RowPending, 0, e.ledger, false, None, None))
      else Some(row.value.(roundAmount := e.payload.roundAmount, memberCount := n, totalRounds := n))
    else if row.None? then None
    else
      match e.payload
      case Activated(_, _) => Some(row.value.(status := RowActive))
      case PaidOut(_, _, _, round) => Some(row.value.(currentRound := round + 1))
      case RoundStarted(_, round, _, _) => Some(row.value.(currentRound := round))
      case Completed(_, _) => Some(row.value.(status := RowCompleted))
      case Cancelled(_, _, _) => Some(row.value.(status := RowCancelled))
      case Closed(_, _, released, _, reason) =>
        Some(row.value.(status := RowClosed, released := Some(released), closeReason := Some(reason)))
      case Paused(_, _, _) => Some(row.value.(paused := true))
      case Resumed(_, _, _) => Some(row.value.(paused := false))
      case _ => row
  }

  ghost predicate RowStepped(t: Tables, e: Event, u: Tables, a: Address) {
    RowOf(u.circles, a) == NextRow(RowOf(t.circles, a), e, a)
  }

  lemma {:induction false} TouchesStatus(t: Tables, e: Event, u: Tables, b: Address)
    requires Handled(t, e, u)
    requires e.payload.Activated? || e.payload.Completed? || e.payload.RoundStarted? || e.payload.Paused? || e.payload.Resumed?
    ensures Framed(t, e, u) && RowStepped(t, e, u, b)
  {
    HandleIs(t, e);
    match e.payload
    case Activated(_, _) => StatusUpdated(t, e.contractId, RowActive, b);
    case Completed(_, _) => StatusUpdated(t, e.contractId, RowCompleted, b);
    case RoundStarted(_, round, _, _) => RoundUpdated(t, e.contractId, round, b);
    case Paused(_, _, _) => PauseUpdated(t, e.contractId, true, b);
    case _ => PauseUpdated(t, e.contractId, false, b);
  }

  lemma {:induction false} AnnouncedEffect(t: Tables, e: Event, u: Tables)
    requires e.payload.Initialized? && OnInitialized(t, e) == Done(u)
    ensures Framed(t, e, u)
  {
  }

  lemma {:induction false} JoinedEffect(t: Tables, e: Event, u: Tables)
    requires e.payload.Joined? && OnJoined(t, e) == Done(u)
    ensures Framed(t, e, u)
  {
  }

  lemma {:induction false} DefaultedEffect(t: Tables, e: Event, u: Tables)
    requires e.payload.Defaulted? && OnDefaulted(t, e) == Done(u)
    ensures Framed(t, e, u)
  {
  }

  lemma {:induction false} TouchesMembers(t: Tables, e: Event, u: Tables)
    requires Handled(t, e, u) && IsMembership(e)
    ensures Framed(t, e, u)
  {
    HandleIs(t, e);
    match e.payload
    case Initialized(_, _, _, _) => AnnouncedEffect(t, e, u);
    case Joined(_, _, _, _) => JoinedEffect(t, e, u);
    case Defaulted(_, _, _, _, _) => DefaultedEffect(t, e, u);
  }

  lemma {:induction false} TouchesPayouts(t: Tables, e: Event, u: Tables, b: Address)
    requires Handled(t, e, u) && IsPayout(e)
    ensures Framed(t, e, u) && RowStepped(t, e, u, b)
  {
    HandleIs(t, e);
    if e.payload.PaidOut? {
      PaidOutEffect(t, e, u, b);
    } else {
      SettlementEffect(t, e, u);
    }
  }

  lemma {:induction false} SettlementEffect(t: Tables, e: Event, u: Tables)
    requires e.payload.ExceptionalSettlement? && OnExceptionalSettlement(t, e) == Done(u)
    ensures u == t.(payouts := u.payouts)
  {
  }

  lemma {:induction false} PaidOutEffect(t: Tables, e: Event, u: Tables, b: Address)
    requires e.payload.PaidOut? && OnPaidOut(t, e) == Done(u)
    ensures u == t.(payouts := u.payouts, circles := u.circles) && RowStepped(t, e, u, b)
  {
  }

  lemma {:induction false} TouchesContributions(t: Tables, e: Event, u: Tables)
    requires Handled(t, e, u) && (e.payload.Contributed?)
    ensures Framed(t, e, u)
  {
    HandleIs(t, e);
  }

  lemma {:induction false} CancelledEffect(t: Tables, e: Event, u: Tables, b: Address)
    requires e.payload.Cancelled? && OnCancelled(t, e) == Done(u)
    ensures u == t.(circles := u.circles, audit := u.audit) && RowStepped(t, e, u, b)
    ensures u.audit == if AuditKeyOf(e) in t.audit then t.audit else t.audit[AuditKeyOf(e) := AuditOf(e)]
  {
  }

  lemma {:induction false} ClosedEffect(t: Tables, e: Event, u: Tables, b: Address)
    requires e.payload.Closed? && OnClosed(t, e) == Done(u)
    ensures u == t.(circles := u.circles, audit := u.audit) && RowStepped(t, e, u, b)
    ensures u.audit == if AuditKeyOf(e) in t.audit then t.audit else t.audit[AuditKeyOf(e) := AuditOf(e)]
  {
  }

  lemma {:induction false} AuditEffect(t: Tables, e: Event, u: Tables, b: Address)
    requires Handled(t, e, u) && IsAudited(e)
    ensures Framed(t, e, u) && RowStepped(t, e, u, b)
    ensures u.audit == if AuditKeyOf(e) in t.audit then t.audit else t.audit[AuditKeyOf(e) := AuditOf(e)]
  {
    HandleIs(t, e);
    if e.payload.Cancelled? {
      CancelledEffect(t, e, u, b);
    } else {
      ClosedEffect(t, e, u, b);
    }
  }

  lemma {:induction false} TouchesScores(t: Tables, e: Event, u: Tables)
    requires Handled(t, e, u) && (e.payload.ScoreUpdated?)
    ensures Framed(t, e, u)
  {
    HandleIs(t, e);
  }

  lemma {:induction false} TouchesCreated(t: Tables, e: Event, u: Tables)
    requires Handled(t, e, u) && e.payload.CircleCreated?
    ensures Framed(t, e, u)
  {
    HandleIs(t, e);
    CreatedEffect(t, e, u);
  }

  lemma {:induction false} TouchesNothing(t: Tables, e: Event, u: Tables)
    requires Handled(t, e, u) && (e.payload.CollateralReleased? || e.payload.Unregistered?)
    ensures Framed(t, e, u)
  {
    HandleIs(t, e);
  }

  /** Which tables an event can change. */
  lemma {:induction false} Touches(t: Tables, e: Event, u: Tables)
    requires Handled(t, e, u)
    ensures Framed(t, e, u)
  {
    match e.payload
    case Initialized(_, _, _, _) => TouchesMembers(t, e, u);
    case Joined(_, _, _, _) => TouchesMembers(t, e, u);
    case Defaulted(_, _, _, _, _) => TouchesMembers(t, e, u);
    case Contributed(_, _, _, _) => TouchesContributions(t, e, u);
    case PaidOut(_, _, _, _) => TouchesPayouts(t, e, u, e.contractId);
    case ExceptionalSettlement(_, _, _, _, _) => TouchesPayouts(t, e, u, e.contractId);
    case Cancelled(_, _, _) => AuditEffect(t, e, u, e.contractId);
    case Closed(_, _, _, _, _) => AuditEffect(t, e, u, e.contractId);
    case ScoreUpdated(_, _) => TouchesScores(t, e, u);
    case Activated(_, _) => TouchesStatus(t, e, u, e.contractId);
    case Completed(_, _) => TouchesStatus(t, e, u, e.contractId);
    case RoundStarted(_, _, _, _) => TouchesStatus(t, e, u, e.contractId);
    case Paused(_, _, _) => TouchesStatus(t, e, u, e.contractId);
    case Resumed(_, _, _) => TouchesStatus(t, e, u, e.contractId);
    case CircleCreated(_, _, _) => TouchesCreated(t, e, u);
    case _ => TouchesNothing(t, e, u);
  }

  // ----- Contributions: a row per member and round, from the first event that reports it -----

  function Contributes(k: ContributionKey): Event -> bool {
    (e: Event) => e.payload.Contributed? && ContributionKey(e.contractId, e.payload.member, e.payload.round) == k
  }

  function ContributionOf(e: Event): ContributionRow
    requires e.payload.Contributed?
  {
    ContributionRow(e.payload.amount, e.txHash, e.ledger)
  }

  ghost predicate ContributionRead(rows: map<ContributionKey, ContributionRow>, events: seq<Event>, k: ContributionKey) {
    var e := First(events, Contributes(k));
    && (k in rows <==> e.Some?)
    && (e.Some? ==> rows[k] == ContributionOf(e.value))
  }

  lemma {:induction false} ContributionsAfter(t: Tables, e: Event, u: Tables)
    requires Handled(t, e, u)
    ensures !e.payload.Contributed? ==> u.contributions == t.contributions
    ensures e.payload.Contributed? ==>
      var k := ContributionKey(e.contractId, e.payload.member, e.payload.round);
      u.contributions == if k in t.contributions then t.contributions else t.contributions[k := ContributionOf(e)]
  {
    if e.payload.Contributed? {
      HandleIs(t, e);
    } else {
      Touches(t, e, u);
    }
  }

  lemma {:induction false} ContributionStep(t: Tables, events: seq<Event>, e: Event, u: Tables, k: ContributionKey)
    requires ContributionRead(t.contributions, events, k) && Handled(t, e, u)
    ensures ContributionRead(u.contributions, events + [e], k)
  {
    ContributionsAfter(t, e, u);
    Snoc(events, e, Contributes(k));
  }

  // ----- Defaults: a row per default event, in order -----

  function DefaultRows(events: seq<Event>): seq<DefaultRow> {
    if events == [] then []
    else
      var e := events[|events| - 1];
      DefaultRows(events[..|events| - 1])
      + if e.payload.Defaulted? then
          [DefaultRow(e.contractId, e.payload.member, e.payload.round, e.payload.penalty, e.txHash, e.ledger)]
        else []
  }

  lemma {:induction false} DefaultsStep(t: Tables, events: seq<Event>, e: Event, u: Tables)
    requires t.defaults == DefaultRows(events) && Handled(t, e, u)
    ensures u.defaults == DefaultRows(events + [e])
  {
    DefaultsAfter(t, e, u);
    assert (events + [e])[..|events|] == events;
  }

  lemma {:induction false} DefaultsAfter(t: Tables, e: Event, u: Tables)
    requires Handled(t, e, u)
    ensures u.defaults == t.defaults
      + if e.payload.Defaulted? then
          [DefaultRow(e.contractId, e.payload.member, e.payload.round, e.payload.penalty, e.txHash, e.ledger)]
        else []
  {
    if IsMembership(e) {
      HandleIs(t, e);
    } else {
      Touches(t, e, u);
    }
  }

  // ----- Scores: the latest score event of each member -----

  function Scores(m: Address): Event -> bool {
    (e: Event) => e.payload.ScoreUpdated? && e.payload.member == m
  }

  ghost predicate ScoreRead(rows: map<Address, nat>, events: seq<Event>, m: Address) {
    var e := Last(events, Scores(m));
    && (m in rows <==> e.Some?)
    && (e.Some? ==> rows[m] == e.value.payload.score)
  }

  lemma {:induction false} ScoresAfter(t: Tables, e: Event, u: Tables)
    requires Handled(t, e, u)
    ensures u.reputation == if e.payload.ScoreUpdated? then t.reputation[e.payload.member := e.payload.score] else t.reputation
  {
    if e.payload.ScoreUpdated? {
      HandleIs(t, e);
    } else {
      Touches(t, e, u);
    }
  }

  lemma {:induction false} ScoreStep(t: Tables, events: seq<Event>, e: Event, u: Tables, m: Address)
    requires ScoreRead(t.reputation, events, m) && Handled(t, e, u)
    ensures ScoreRead(u.reputation, events + [e], m)
  {
    ScoresAfter(t, e, u);
    Snoc(events, e, Scores(m));
  }

  // ----- Payouts: from the first event about a round; exceptional if any settlement event says so -----

  function Pays(k: PayoutKey): Event -> bool {
    (e: Event) => IsPayout(e) && PayoutKey(e.contractId, e.payload.round) == k
  }

  function SettlesExceptionally(k: PayoutKey): Event -> bool {
    (e: Event) => e.payload.ExceptionalSettlement? && PayoutKey(e.contractId, e.payload.round) == k
  }

  function PayoutOf(e: Event, exceptional: Option<Event>): PayoutRow
    requires IsPayout(e) && (exceptional.Some? ==> exceptional.value.payload.ExceptionalSettlement?)
  {
    PayoutRow(e.payload.recipient, e.payload.pot, e.txHash, e.ledger, exceptional.Some?,
              if exceptional.Some? then Some(exceptional.value.payload.defaultedCount) else None)
  }

  ghost predicate PayoutRead(rows: map<PayoutKey, PayoutRow>, events: seq<Event>, k: PayoutKey) {
    var e := First(events, Pays(k));
    && (k in rows <==> e.Some?)
    && (e.Some? ==> rows[k] == PayoutOf(e.value, Last(events, SettlesExceptionally(k))))
    && (Last(events, SettlesExceptionally(k)).Some? ==> e.Some?)
  }

  lemma {:induction false} SettlementRow(t: Tables, e: Event, u: Tables)
    requires e.payload.ExceptionalSettlement? && OnExceptionalSettlement(t, e) == Done(u)
    ensures var k := PayoutKey(e.contractId, e.payload.round);
            u.payouts == t.payouts[k := if k in t.payouts then
                                          t.payouts[k].(isExceptional := true, defaultedCount := Some(e.payload.defaultedCount))
                                        else PayoutOf(e, Some(e))]
  {
  }

  lemma {:induction false} SettlementAfter(t: Tables, e: Event, u: Tables)
    requires Handled(t, e, u) && e.payload.ExceptionalSettlement?
    ensures var k := PayoutKey(e.contractId, e.payload.round);
            u.payouts == t.payouts[k := if k in t.payouts then
                                          t.payouts[k].(isExceptional := true, defaultedCount := Some(e.payload.defaultedCount))
                                        else PayoutOf(e, Some(e))]
  {
    HandleIs(t, e);
    SettlementRow(t, e, u);
  }

  lemma {:induction false} PayoutStep(t: Tables, events: seq<Event>, e: Event, u: Tables, k: PayoutKey)
    requires PayoutRead(t.payouts, events, k) && Handled(t, e, u)
    ensures PayoutRead(u.payouts, events + [e], k)
  {
    if e.payload.PaidOut? {
    } else if e.payload.ExceptionalSettlement? {
      SettlementAfter(t, e, u);
    } else {
      Touches(t, e, u);
    }
    Snoc(events, e, Pays(k));
    Snoc(events, e, SettlesExceptionally(k));
  }

  // ----- Audit: the first cancellation and the first close of a circle -----

  function AuditKeyOf(e: Event): AuditKey
    requires IsAudited(e)
  {
    AuditKey(e.contractId, if e.payload.Cancelled? then AuditCancelled else AuditClosed)
  }

  function Audits(k: AuditKey): Event -> bool {
    (e: Event) => IsAudited(e) && AuditKeyOf(e) == k
  }

  function AuditOf(e: Event): AuditRow
    requires IsAudited(e)
  {
    if e.payload.Cancelled? then AuditRow(e.payload.caller, e.payload.atLedger, e.txHash, None, None, None)
    else AuditRow(e.payload.closer, e.ledger, e.txHash, Some(e.payload.released), Some(e.payload.expected), Some(e.payload.reason))
  }

  ghost predicate AuditRead(rows: map<AuditKey, AuditRow>, events: seq<Event>, k: AuditKey) {
    var e := First(events, Audits(k));
    && (k in rows <==> e.Some?)
    && (e.Some? ==> rows[k] == AuditOf(e.value))
  }

  lemma {:induction false} AuditStep(t: Tables, events: seq<Event>, e: Event, u: Tables, k: AuditKey)
    requires AuditRead(t.audit, events, k) && Handled(t, e, u)
    ensures AuditRead(u.audit, events + [e], k)
  {
    if IsAudited(e) {
      AuditEffect(t, e, u, e.contractId);
    } else {
      Touches(t, e, u);
    }
    Snoc(events, e, Audits(k));
  }

  // ----- Members: announced once, joined by the latest join event, defaults counted -----

  function Lists(k: MemberKey): Event -> bool {
    (e: Event) => e.payload.Initialized? && e.contractId == k.circle && e.payload.members.Some?
                  && k.member in e.payload.members.value
  }

  function Joins(k: MemberKey): Event -> bool {
    (e: Event) => e.payload.Joined? && MemberKey(e.contractId, e.payload.member) == k
  }

  predicate Flags(e: Event, k: MemberKey) {
    e.payload.Defaulted? && MemberKey(e.contractId, e.payload.member) == k
  }

  /** How many default events name the member since its circle's rotation was announced. */
  function TimesFlagged(events: seq<Event>, k: MemberKey): nat {
    if events == [] then 0
    else
      var init, e := events[..|events| - 1], events[|events| - 1];
      TimesFlagged(init, k) + if Flags(e, k) && First(init, Lists(k)).Some? then 1 else 0
  }

  /** The slot at which the announcement lists the member. */
  ghost predicate Slotted(row: MemberRow, e: Event, m: Address)
    requires e.payload.Initialized? && e.payload.members.Some?
  {
    0 <= row.payoutOrder < |e.payload.members.value| && e.payload.members.value[row.payoutOrder] == m
  }

  ghost predicate MemberRead(rows: map<MemberKey, MemberRow>, events: seq<Event>, k: MemberKey) {
    var announced, join := First(events, Lists(k)), Last(events, Joins(k));
    && (k in rows <==> announced.Some?)
    && (join.Some? ==> announced.Some?)
    && (announced.Some? ==>
          && Slotted(rows[k], announced.value, k.member)
          && rows[k].joinOrder == (if join.Some? then Some(join.value.payload.joinOrder) else None)
          && rows[k].collateral == (if join.Some? then join.value.payload.collateral else 0)
          && rows[k].defaults == TimesFlagged(events, k))
    && (announced.None? ==> TimesFlagged(events, k) == 0)
  }

  /** Announcing a rotation adds a fresh row per new member and keeps every row there is. */
  lemma {:induction false} RotationRows(rows: map<MemberKey, MemberRow>, a: Address, members: seq<Address>, n: nat, k: MemberKey)
    requires n <= |members|
    ensures var after := InsertRotation(rows, a, members, n);
            && (k in rows ==> k in after && after[k] == rows[k])
            && (k !in rows ==> (k in after <==> k.circle == a && k.member in members[..n]))
            && (k !in rows && k in after ==>
                  && 0 <= after[k].payoutOrder < n && members[after[k].payoutOrder] == k.member
                  && after[k] == MemberRow(after[k].payoutOrder, None, 0, 0))
  {
    if n > 0 {
      RotationRows(rows, a, members, n - 1, k);
      assert members[..n] == members[..n - 1] + [members[n - 1]];
    }
  }

  lemma {:induction false} AnnouncedAfter(t: Tables, e: Event, u: Tables)
    requires Handled(t, e, u) && e.payload.Initialized?
    ensures u.members == if e.payload.members.Some? then
                           InsertRotation(t.members, e.contractId, e.payload.members.value, |e.payload.members.value|)
                         else t.members
  {
    HandleIs(t, e);
  }

  lemma {:induction false} JoinedAfter(t: Tables, e: Event, u: Tables)
    requires Handled(t, e, u) && e.payload.Joined?
    ensures var k := MemberKey(e.contractId, e.payload.member);
            && k in t.members
            && u.members == t.members[k := t.members[k].(joinOrder := Some(e.payload.joinOrder), collateral := e.payload.collateral)]
  {
    HandleIs(t, e);
  }

  lemma {:induction false} DefaultedAfter(t: Tables, e: Event, u: Tables)
    requires Handled(t, e, u) && e.payload.Defaulted?
    ensures var k := MemberKey(e.contractId, e.payload.member);
            u.members == if k in t.members then t.members[k := t.members[k].(defaults := t.members[k].defaults + 1)] else t.members
  {
    HandleIs(t, e);
  }

  lemma {:induction false} FlaggedSnoc(events: seq<Event>, e: Event, k: MemberKey)
    ensures TimesFlagged(events + [e], k)
         == TimesFlagged(events, k) + if Flags(e, k) && First(events, Lists(k)).Some? then 1 else 0
  {
    assert (events + [e])[..|events|] == events;
  }

  lemma {:induction false} MemberStep(t: Tables, events: seq<Event>, e: Event, u: Tables, k: MemberKey)
    requires MemberRead(t.members, events, k) && Handled(t, e, u)
    ensures MemberRead(u.members, events + [e], k)
  {
    match e.payload {
      case Initialized(_, _, _, _) => AnnouncedAfter(t, e, u);
      case Joined(_, _, _, _) => JoinedAfter(t, e, u);
      case Defaulted(_, _, _, _, _) => DefaultedAfter(t, e, u);
      case _ => Touches(t, e, u);
    }
    Snoc(events, e, Lists(k));
    Snoc(events, e, Joins(k));
    FlaggedSnoc(events, e, k);
    if e.payload.Initialized? && e.payload.members.Some? {
      var members := e.payload.members.value;
      RotationRows(t.members, e.contractId, members, |members|, k);
      assert members[..|members|] == members;
    }
  }

  // ----- Circles: every column from the first, or the latest, event that decides it -----

  function Introduces(a: Address): Event -> bool {
    (e: Event) => (e.payload.CircleCreated? && e.payload.circle == a) || (e.payload.Initialized? && e.contractId == a)
  }

  function Creates(a: Address): Event -> bool {
    (e: Event) => e.payload.CircleCreated? && e.payload.circle == a && e.payload.creator != NoAddress
  }

  function Configures(a: Address): Event -> bool {
    (e: Event) => e.payload.Initialized? && e.contractId == a
  }

  function SetsStatus(a: Address): Event -> bool {
    (e: Event) => (e.payload.Activated? || e.payload.Completed? || IsAudited(e)) && e.contractId == a
  }

  function SetsRound(a: Address): Event -> bool {
    (e: Event) => (e.payload.PaidOut? || e.payload.RoundStarted?) && e.contractId == a
  }

  function SetsPause(a: Address): Event -> bool {
    (e: Event) => (e.payload.Paused? || e.payload.Resumed?) && e.contractId == a
  }

  function Closes(a: Address): Event -> bool {
    (e: Event) => e.payload.Closed? && e.contractId == a
  }

  /** The latest event after the circle was introduced: an update before that has no row to change. */
  function Latest(events: seq<Event>, a: Address, p: Event -> bool): (r: Option<Event>)
    ensures r.Some? ==> p(r.value)
  {
    if events == [] then None
    else
      var init, e := events[..|events| - 1], events[|events| - 1];
      if p(e) && First(init, Introduces(a)).Some? then Some(e) else Latest(init, a, p)
  }

  function CreatorRead(events: seq<Event>, a: Address): Address {
    match First(events, Creates(a))
    case Some(e) => e.payload.creator
    case None => NoAddress
  }

  /** The contribution per round and the number of members, as last announced. */
  function ConfigRead(events: seq<Event>, a: Address): (int, nat) {
    match Last(events, Configures(a))
    case Some(e) => (e.payload.roundAmount, e.payload.memberCount)
    case None => (0, 0)
  }

  function ClosingRead(events: seq<Event>, a: Address): (Option<int>, Option<CloseReason>) {
    match Latest(events, a, Closes(a))
    case Some(e) => (Some(e.payload.released), Some(e.payload.reason))
    case None => (None, None)
  }

  function StatusRead(events: seq<Event>, a: Address): RowStatus {
    match Latest(events, a, SetsStatus(a))
    case None => RowPending
    case Some(e) =>
      match e.payload
      case Activated(_, _) => RowActive
      case Completed(_, _) => RowCompleted
      case Cancelled(_, _, _) => RowCancelled
      case Closed(_, _, _, _, _) => RowClosed
  }

  function RoundRead(events: seq<Event>, a: Address): nat {
    match Latest(events, a, SetsRound(a))
    case None => 0
    case Some(e) => if e.payload.PaidOut? then e.payload.round + 1 else e.payload.round
  }

  function PauseRead(events: seq<Event>, a: Address): bool {
    match Latest(events, a, SetsPause(a))
    case None => false
    case Some(e) => e.payload.Paused?
  }

  /** The row the log calls for: there is none before the circle's creation or initialisation is reported. */
  function RowCalledFor(events: seq<Event>, a: Address): Option<CircleRow> {
    match First(events, Introduces(a))
    case None => None
    case Some(introduced) =>
      var config, closing := ConfigRead(events, a), ClosingRead(events, a);
      Some(CircleRow(
        CreatorRead(events, a), config.0, config.1, config.1, StatusRead(events, a), RoundRead(events, a),
        introduced.ledger, PauseRead(events, a), closing.0, closing.1))
  }

  ghost predicate CircleRead(rows: map<Address, CircleRow>, events: seq<Event>, a: Address) {
    RowOf(rows, a) == RowCalledFor(events, a)
  }

  lemma {:induction false} LatestSnoc(events: seq<Event>, e: Event, a: Address, p: Event -> bool)
    ensures Latest(events + [e], a, p)
         == if p(e) && First(events, Introduces(a)).Some? then Some(e) else Latest(events, a, p)
  {
    assert (events + [e])[..|events|] == events;
  }

  /** Only an introduced circle has decided columns. */
  lemma {:induction false} Undecided(events: seq<Event>, a: Address, p: Event -> bool)
    ensures First(events, Introduces(a)).None? ==> Latest(events, a, p).None?
    ensures First(events, Introduces(a)).None? ==> First(events, Creates(a)).None? && Last(events, Configures(a)).None?
  {
    if events != [] {
      Undecided(events[..|events| - 1], a, p);
    }
  }

  predicate Introduced(events: seq<Event>, a: Address) {
    First(events, Introduces(a)).Some?
  }

  lemma {:induction false} CreatorSnoc(events: seq<Event>, e: Event, a: Address, row: CircleRow)
    requires row.creator == CreatorRead(events, a)
    ensures NextRow(Some(row), e, a).value.creator == CreatorRead(events + [e], a)
  {
    Snoc(events, e, Creates(a));
  }

  lemma {:induction false} ConfigSnoc(events: seq<Event>, e: Event, a: Address, row: CircleRow)
    requires (row.roundAmount, row.memberCount) == ConfigRead(events, a) && row.totalRounds == row.memberCount
    ensures var next := NextRow(Some(row), e, a).value;
            (next.roundAmount, next.memberCount) == ConfigRead(events + [e], a) && next.totalRounds == next.memberCount
  {
    Snoc(events, e, Configures(a));
  }

  lemma {:induction false} StatusSnoc(events: seq<Event>, e: Event, a: Address, row: CircleRow)
    requires Introduced(events, a) && row.status == StatusRead(events, a)
    ensures NextRow(Some(row), e, a).value.status == StatusRead(events + [e], a)
  {
    LatestSnoc(events, e, a, SetsStatus(a));
  }

  lemma {:induction false} RoundSnoc(events: seq<Event>, e: Event, a: Address, row: CircleRow)
    requires Introduced(events, a) && row.currentRound == RoundRead(events, a)
    ensures NextRow(Some(row), e, a).value.currentRound == RoundRead(events + [e], a)
  {
    LatestSnoc(events, e, a, SetsRound(a));
  }

  lemma {:induction false} PauseSnoc(events: seq<Event>, e: Event, a: Address, row: CircleRow)
    requires Introduced(events, a) && row.paused == PauseRead(events, a)
    ensures NextRow(Some(row), e, a).value.paused == PauseRead(events + [e], a)
  {
    LatestSnoc(events, e, a, SetsPause(a));
  }

  lemma {:induction false} ClosingSnoc(events: seq<Event>, e: Event, a: Address, row: CircleRow)
    requires Introduced(events, a) && (row.released, row.closeReason) == ClosingRead(events, a)
    ensures var next := NextRow(Some(row), e, a).value;
            (next.released, next.closeReason) == ClosingRead(events + [e], a)
  {
    LatestSnoc(events, e, a, Closes(a));
  }

  lemma {:induction false} AssembledRow(events: seq<Event>, a: Address, next: CircleRow)
    requires Introduced(events, a) && First(events, Introduces(a)).value.ledger == next.createdLedger
    requires next.creator == CreatorRead(events, a) && next.totalRounds == next.memberCount
    requires (next.roundAmount, next.memberCount) == ConfigRead(events, a)
    requires next.status == StatusRead(events, a) && next.currentRound == RoundRead(events, a)
    requires next.paused == PauseRead(events, a) && (next.released, next.closeReason) == ClosingRead(events, a)
    ensures RowCalledFor(events, a) == Some(next)
  {
  }

  lemma {:induction false} IntroducedSnoc(events: seq<Event>, e: Event, a: Address)
    requires Introduced(events, a)
    ensures First(events + [e], Introduces(a)) == First(events, Introduces(a))
  {
    Snoc(events, e, Introduces(a));
  }

  lemma {:induction false} IntroductionKept(row: CircleRow, e: Event, a: Address)
    ensures NextRow(Some(row), e, a).value.createdLedger == row.createdLedger
  {
  }

  /** One more event changes the row of an introduced circle just as it changes the row the log calls for. */
  lemma {:induction false} KnownSnoc(events: seq<Event>, e: Event, a: Address, row: CircleRow, next: CircleRow)
    requires Introduced(events, a) && RowCalledFor(events, a) == Some(row) && NextRow(Some(row), e, a) == Some(next)
    ensures RowCalledFor(events + [e], a) == Some(next)
  {
    IntroducedSnoc(events, e, a);
    IntroductionKept(row, e, a);
    CreatorSnoc(events, e, a, row);
    ConfigSnoc(events, e, a, row);
    StatusSnoc(events, e, a, row);
    RoundSnoc(events, e, a, row);
    PauseSnoc(events, e, a, row);
    ClosingSnoc(events, e, a, row);
    AssembledRow(events + [e], a, next);
  }

  /** Until its circle is introduced an event decides no column but the ones it announces. */
  lemma {:induction false} UndecidedSnoc(events: seq<Event>, e: Event, a: Address, p: Event -> bool)
    requires !Introduced(events, a)
    ensures Latest(events + [e], a, p).None?
  {
    LatestSnoc(events, e, a, p);
    Undecided(events, a, p);
  }

  lemma {:induction false} FreshSnoc(events: seq<Event>, e: Event, a: Address)
    requires !Introduced(events, a)
    ensures RowCalledFor(events + [e], a) == NextRow(None, e, a)
  {
    Snoc(events, e, Introduces(a));
    if Introduces(a)(e) {
      UndecidedSnoc(events, e, a, SetsStatus(a));
      UndecidedSnoc(events, e, a, SetsRound(a));
      UndecidedSnoc(events, e, a, SetsPause(a));
      UndecidedSnoc(events, e, a, Closes(a));
      Undecided(events, a, Closes(a));
      Snoc(events, e, Creates(a));
      Snoc(events, e, Configures(a));
    }
  }

  /** One more event changes the row the log calls for just as it changes the row. */
  lemma {:induction false} CalledForSnoc(events: seq<Event>, e: Event, a: Address)
    ensures RowCalledFor(events + [e], a) == NextRow(RowCalledFor(events, a), e, a)
  {
    if Introduced(events, a) {
      var row := RowCalledFor(events, a).value;
      KnownSnoc(events, e, a, row, NextRow(Some(row), e, a).value);
    } else {
      FreshSnoc(events, e, a);
    }
  }

  lemma {:induction false} IntroducedAfter(t: Tables, e: Event, u: Tables, a: Address)
    requires Handled(t, e, u) && (e.payload.CircleCreated? || e.payload.Initialized?)
    ensures RowStepped(t, e, u, a)
  {
    HandleIs(t, e);
    if e.payload.CircleCreated? {
      CreatedEffect(t, e, u);
    } else {
      ConfiguredEffect(t, e, u, a);
    }
  }

  lemma {:induction false} ConfiguredEffect(t: Tables, e: Event, u: Tables, a: Address)
    requires e.payload.Initialized? && OnInitialized(t, e) == Done(u)
    ensures RowStepped(t, e, u, a)
  {
  }

  lemma {:induction false} RowAfter(t: Tables, e: Event, u: Tables, a: Address)
    requires Handled(t, e, u)
    ensures RowStepped(t, e, u, a)
  {
    match e.payload
    case CircleCreated(_, _, _) => IntroducedAfter(t, e, u, a);
    case Initialized(_, _, _, _) => IntroducedAfter(t, e, u, a);
    case Activated(_, _) => TouchesStatus(t, e, u, a);
    case Completed(_, _) => TouchesStatus(t, e, u, a);
    case RoundStarted(_, _, _, _) => TouchesStatus(t, e, u, a);
    case Paused(_, _, _) => TouchesStatus(t, e, u, a);
    case Resumed(_, _, _) => TouchesStatus(t, e, u, a);
    case PaidOut(_, _, _, _) => TouchesPayouts(t, e, u, a);
    case ExceptionalSettlement(_, _, _, _, _) => TouchesPayouts(t, e, u, a);
    case Cancelled(_, _, _) => AuditEffect(t, e, u, a);
    case Closed(_, _, _, _, _) => AuditEffect(t, e, u, a);
    case _ => OthersKept(t, e, u);
  }

  lemma {:induction false} OthersKept(t: Tables, e: Event, u: Tables)
    requires Handled(t, e, u)
    requires e.payload.Joined? || e.payload.Contributed? || e.payload.Defaulted? || e.payload.ScoreUpdated?
          || e.payload.CollateralReleased? || e.payload.Unregistered?
    ensures u.circles == t.circles
  {
    HandleIs(t, e);
  }

  lemma {:induction false} CircleStep(t: Tables, events: seq<Event>, e: Event, u: Tables, a: Address)
    requires CircleRead(t.circles, events, a) && Handled(t, e, u)
    ensures CircleRead(u.circles, events + [e], a)
  {
    RowAfter(t, e, u, a);
    CalledForSnoc(events, e, a);
  }

  // ----- The whole log -----

  /** Every table is what the log says. */
  ghost predicate ReadOff(t: Tables, events: seq<Event>) {
    && (forall k :: ContributionRead(t.contributions, events, k))
    && t.defaults == DefaultRows(events)
    && (forall k :: MemberRead(t.members, events, k))
    && (forall k :: PayoutRead(t.payouts, events, k))
    && (forall k :: AuditRead(t.audit, events, k))
    && (forall m :: ScoreRead(t.reputation, events, m))
    && (forall a :: CircleRead(t.circles, events, a))
  }

  lemma {:induction false} StepReadOff(t: Tables, events: seq<Event>, e: Event, u: Tables)
    requires ReadOff(t, events) && Handled(t, e, u)
    ensures ReadOff(u, events + [e])
  {
    forall k ensures ContributionRead(u.contributions, events + [e], k) {
      ContributionStep(t, events, e, u, k);
    }
    DefaultsStep(t, events, e, u);
    forall k ensures MemberRead(u.members, events + [e], k) {
      MemberStep(t, events, e, u, k);
    }
    forall k ensures PayoutRead(u.payouts, events + [e], k) {
      PayoutStep(t, events, e, u, k);
    }
    forall k ensures AuditRead(u.audit, events + [e], k) {
      AuditStep(t, events, e, u, k);
    }
    forall m ensures ScoreRead(u.reputation, events + [e], m) {
      ScoreStep(t, events, e, u, m);
    }
    forall a ensures CircleRead(u.circles, events + [e], a) {
      CircleStep(t, events, e, u, a);
    }
  }

  /** After any events that every handler accepted, each row of each table is the one the log calls for, and no other. */
  lemma {:induction false} TablesReadOffLog(events: seq<Event>)
    requires Replay(EMPTY_TABLES, events).Done?
    ensures ReadOff(Replay(EMPTY_TABLES, events).value, events)
  {
    if events != [] {
      var init, e := events[..|events| - 1], events[|events| - 1];
      assert events == init + [e];
      ReplayAppend(EMPTY_TABLES, init, [e]);
      var t := Replay(EMPTY_TABLES, init).value;
      assert Replay(t, [e]) == Handle(t, e);
      TablesReadOffLog(init);
      StepReadOff(t, init, e, Replay(EMPTY_TABLES, events).value);
    }
  }
}
