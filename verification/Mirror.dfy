/**
 * The projection refines the contract: replaying the events of any transaction history through the
 * handlers never fails, and leaves rows that mirror every circle.
 */
module Mirror {
  import opened Prelude
  import opened Events
  import opened CircleContract
  import opened Projection
  import opened World
  import Books

  function StatusOf(c: Circle): RowStatus {
    if c.closed then RowClosed
    else
      match c.status
      case StPending => RowPending
      case StActive => RowActive
      case StCompleted => RowCompleted
      case StCancelled => RowCancelled
  }

  ghost predicate RowMirrors(c: Circle, row: CircleRow) {
    && row.roundAmount == c.roundAmount
    && row.memberCount == row.totalRounds == |c.rotation|
    && row.status == StatusOf(c)
    && row.paused == c.paused
    && row.currentRound == PaidRounds(c)
  }

  /** One member row per rotation slot, and no other; joined exactly when collateral was locked. */
  ghost predicate MembersMirror(c: Circle, a: Address, rows: map<MemberKey, MemberRow>) {
    && (forall m :: MemberKey(a, m) in rows <==> m in c.rotation)
    && (forall i :: 0 <= i < |c.rotation| ==>
          MemberKey(a, c.rotation[i]) in rows && rows[MemberKey(a, c.rotation[i])].payoutOrder == i)
    && (forall m :: m in c.rotation ==> (rows[MemberKey(a, m)].joinOrder.Some? <==> m in c.collateral))
  }

  /** One payout row per paid round, to the rotation's recipient, for the full pot unless exceptional. */
  ghost predicate PayoutsMirror(c: Circle, a: Address, rows: map<PayoutKey, PayoutRow>) {
    forall r: nat ::
      && (PayoutKey(a, r) in rows <==> r < PaidRounds(c))
      && (r < PaidRounds(c) && r < |c.rotation| ==>
            && rows[PayoutKey(a, r)].recipient == c.rotation[r]
            && (!rows[PayoutKey(a, r)].isExceptional ==>
                  rows[PayoutKey(a, r)].amount == c.roundAmount * |c.rotation|))
  }

  ghost predicate Mirrors(c: Circle, a: Address, t: Tables) {
    && a in t.circles && RowMirrors(c, t.circles[a])
    && MembersMirror(c, a, t.members)
    && PayoutsMirror(c, a, t.payouts)
  }

  /** Nothing is indexed for an address that is not a circle. */
  ghost predicate Blank(a: Address, t: Tables) {
    && a !in t.circles
    && (forall k: MemberKey :: k in t.members ==> k.circle != a)
    && (forall k: PayoutKey :: k in t.payouts ==> k.circle != a)
  }

  ghost predicate Reflects(w: Circles, t: Tables) {
    && (forall a :: a in w ==> Mirrors(w[a], a, t))
    && (forall a :: a !in w ==> Blank(a, t))
  }

  // ----- Framing: events about one circle leave every other circle's rows alone -----

  ghost predicate SameElsewhere(a: Address, t: Tables, u: Tables) {
    && (forall b :: b != a ==> (b in u.circles <==> b in t.circles))
    && (forall b :: b != a && b in t.circles ==> b in u.circles && u.circles[b] == t.circles[b])
    && (forall k: MemberKey :: k.circle != a ==> (k in u.members <==> k in t.members))
    && (forall k: MemberKey :: k.circle != a && k in t.members ==> k in u.members && u.members[k] == t.members[k])
    && (forall k: PayoutKey :: k.circle != a ==> (k in u.payouts <==> k in t.payouts))
    && (forall k: PayoutKey :: k.circle != a && k in t.payouts ==> k in u.payouts && u.payouts[k] == t.payouts[k])
  }

  /** The default rows of all circles but one. */
  function DefaultsElsewhere(rows: seq<DefaultRow>, a: Address): seq<DefaultRow> {
    if rows == [] then []
    else
      var last := rows[|rows| - 1];
      DefaultsElsewhere(rows[..|rows| - 1], a) + if last.circle != a then [last] else []
  }

  /** The same for the tables of contributions, defaults and outcomes. */
  ghost predicate SameRecordsElsewhere(a: Address, t: Tables, u: Tables) {
    && (forall k: ContributionKey :: k.circle != a ==> (k in u.contributions <==> k in t.contributions))
    && (forall k: ContributionKey :: k.circle != a && k in t.contributions ==> u.contributions[k] == t.contributions[k])
    && (forall k: AuditKey :: k.circle != a ==> (k in u.audit <==> k in t.audit))
    && (forall k: AuditKey :: k.circle != a && k in t.audit ==> u.audit[k] == t.audit[k])
    && DefaultsElsewhere(u.defaults, a) == DefaultsElsewhere(t.defaults, a)
  }

  ghost predicate Concerns(a: Address, e: Event) {
    && e.contractId == Publisher(e.payload, a)
    && (e.payload.CircleCreated? ==> e.payload.circle == a)
  }

  lemma {:induction false} InsertRotationFrame(rows: map<MemberKey, MemberRow>, a: Address, members: seq<Address>, n: nat)
    requires n <= |members|
    ensures var r := InsertRotation(rows, a, members, n);
            forall k: MemberKey :: k.circle != a ==> (k in r <==> k in rows) && (k in rows ==> r[k] == rows[k])
  {
    if n > 0 {
      InsertRotationFrame(rows, a, members, n - 1);
    }
  }

  predicate TouchesMembers(p: Payload) {
    p.Initialized? || p.Joined? || p.Defaulted?
  }

  lemma {:induction false} FrameStatus(a: Address, t: Tables, status: RowStatus)
    ensures SameElsewhere(a, t, SetStatus(t, a, status))
  {
  }

  lemma {:induction false} FramePaused(a: Address, t: Tables, paused: bool)
    ensures SameElsewhere(a, t, SetPaused(t, a, paused))
  {
  }

  /** Rows of the tables that the mirror does not look at. */
  lemma {:induction false} FrameUnseen(a: Address, t: Tables, u: Tables)
    requires u.circles == t.circles && u.members == t.members && u.payouts == t.payouts
    ensures SameElsewhere(a, t, u)
  {
  }

  lemma {:induction false} FrameOutcome(a: Address, t: Tables, e: Event)
    requires Concerns(a, e) && Handle(t, e).Done? && (e.payload.Closed? || e.payload.Cancelled?)
    ensures SameElsewhere(a, t, Handle(t, e).value)
  {
    HandleIs(t, e);
  }

  lemma {:induction false} FrameCreated(a: Address, t: Tables, e: Event)
    requires Concerns(a, e) && Handle(t, e).Done? && e.payload.CircleCreated?
    ensures SameElsewhere(a, t, Handle(t, e).value)
  {
  }

  lemma {:induction false} FrameMembers(a: Address, t: Tables, e: Event)
    requires Concerns(a, e) && Handle(t, e).Done? && TouchesMembers(e.payload)
    ensures SameElsewhere(a, t, Handle(t, e).value)
  {
    if e.payload.Initialized? {
      HandleIs(t, e);
      if e.payload.members.Some? {
        InsertRotationFrame(t.members, a, e.payload.members.value, |e.payload.members.value|);
      }
    }
  }

  lemma {:induction false} FramePaidOut(a: Address, t: Tables, e: Event)
    requires Concerns(a, e) && Handle(t, e).Done? && e.payload.PaidOut?
    ensures SameElsewhere(a, t, Handle(t, e).value)
  {
    HandleIs(t, e);
  }

  lemma {:induction false} FrameSettlement(a: Address, t: Tables, e: Event)
    requires Concerns(a, e) && Handle(t, e).Done? && e.payload.ExceptionalSettlement?
    ensures SameElsewhere(a, t, Handle(t, e).value)
  {
    HandleIs(t, e);
  }

  lemma {:induction false} RecordsFrame(a: Address, t: Tables, e: Event)
    requires Concerns(a, e) && Handle(t, e).Done?
    ensures SameRecordsElsewhere(a, t, Handle(t, e).value)
  {
    match e.payload
    case Contributed(_, _, _, _) => HandleIs(t, e);
    case Defaulted(_, _, _, _, _) => DefaultRecorded(a, t, e);
    case Cancelled(_, _, _) => OutcomeRecorded(a, t, e);
    case Closed(_, _, _, _, _) => OutcomeRecorded(a, t, e);
    case _ => OthersRecordNothing(a, t, e);
  }

  lemma {:induction false} DefaultRecorded(a: Address, t: Tables, e: Event)
    requires Concerns(a, e) && Handle(t, e).Done? && e.payload.Defaulted?
    ensures SameRecordsElsewhere(a, t, Handle(t, e).value)
  {
    HandleIs(t, e);
    var row := DefaultRow(a, e.payload.member, e.payload.round, e.payload.penalty, e.txHash, e.ledger);
    assert Handle(t, e).value.defaults == t.defaults + [row];
    assert (t.defaults + [row])[..|t.defaults|] == t.defaults;
  }

  lemma {:induction false} OutcomeRecorded(a: Address, t: Tables, e: Event)
    requires Concerns(a, e) && Handle(t, e).Done? && (e.payload.Closed? || e.payload.Cancelled?)
    ensures SameRecordsElsewhere(a, t, Handle(t, e).value)
  {
    HandleIs(t, e);
  }

  lemma {:induction false} OthersRecordNothing(a: Address, t: Tables, e: Event)
    requires Concerns(a, e) && Handle(t, e).Done?
    requires !(e.payload.Contributed? || e.payload.Defaulted? || Books.IsAudited(e))
    ensures SameRecordsElsewhere(a, t, Handle(t, e).value)
  {
    var u := Handle(t, e).value;
    Books.Touches(t, e, u);
    if e.payload.Initialized? || e.payload.Joined? {
      HandleIs(t, e);
    }
  }

  /** An event of one circle leaves the rows of every other circle alone, in every table that is kept per circle. */
  lemma {:induction false} HandleFrame(a: Address, t: Tables, e: Event)
    requires Concerns(a, e) && Handle(t, e).Done?
    ensures SameElsewhere(a, t, Handle(t, e).value) && SameRecordsElsewhere(a, t, Handle(t, e).value)
  {
    RecordsFrame(a, t, e);
    RowsFrame(a, t, e);
  }

  lemma {:induction false} RowsFrame(a: Address, t: Tables, e: Event)
    requires Concerns(a, e) && Handle(t, e).Done?
    ensures SameElsewhere(a, t, Handle(t, e).value)
  {
    HandleIs(t, e);
    match e.payload
    case Initialized(_, _, _, _) => FrameMembers(a, t, e);
    case Joined(_, _, _, _) => FrameMembers(a, t, e);
    case Defaulted(_, _, _, _, _) => FrameMembers(a, t, e);
    case PaidOut(_, _, _, _) => FramePaidOut(a, t, e);
    case ExceptionalSettlement(_, _, _, _, _) => FrameSettlement(a, t, e);
    case Activated(_, _) => FrameStatus(a, t, RowActive);
    case Completed(_, _) => FrameStatus(a, t, RowCompleted);
    case RoundStarted(_, round, _, _) =>
    case Paused(_, _, _) => FramePaused(a, t, true);
    case Resumed(_, _, _) => FramePaused(a, t, false);
    case Cancelled(_, _, _) => FrameOutcome(a, t, e);
    case Closed(_, _, _, _, _) => FrameOutcome(a, t, e);
    case CircleCreated(_, _, _) => FrameCreated(a, t, e);
    case Contributed(_, _, _, _) => FrameUnseen(a, t, Handle(t, e).value);
    case ScoreUpdated(_, _) => FrameUnseen(a, t, Handle(t, e).value);
    case CollateralReleased(_, _, _) => FrameUnseen(a, t, Handle(t, e).value);
    case Unregistered(_) =>
  }

  lemma {:induction false} ReplayFrame(a: Address, t: Tables, events: seq<Event>)
    requires forall i :: 0 <= i < |events| ==> Concerns(a, events[i])
    requires Replay(t, events).Done?
    ensures SameElsewhere(a, t, Replay(t, events).value) && SameRecordsElsewhere(a, t, Replay(t, events).value)
    decreases events
  {
    if events != [] {
      HandleFrame(a, t, events[0]);
      ReplayFrame(a, Handle(t, events[0]).value, events[1..]);
    }
  }

  // ----- Per entry point: the emitted events carry the mirror along -----

  /** The events an RPC reports for `payloads` published while circle `a` ran. */
  ghost predicate Carries(events: seq<Event>, payloads: seq<Payload>, a: Address) {
    && |events| == |payloads|
    && forall i :: 0 <= i < |events| ==>
         events[i].payload == payloads[i] && events[i].contractId == Publisher(payloads[i], a)
  }

  ghost predicate ReplaysTo(t: Tables, events: seq<Event>, c: Circle, a: Address) {
    Replay(t, events).Done? && Mirrors(c, a, Replay(t, events).value)
  }

  lemma {:induction false} ReplayOne(t: Tables, e: Event)
    ensures Replay(t, [e]) == Handle(t, e)
  {
    if Handle(t, e).Done? {
      assert Replay(Handle(t, e).value, []) == Handle(t, e);
    }
  }

  /** `default` events only append to `defaults` and bump a counter on the member's row. */
  ghost predicate SameButDefaults(t: Tables, u: Tables) {
    && u.circles == t.circles && u.payouts == t.payouts
    && u.members.Keys == t.members.Keys
    && forall k :: k in t.members ==> u.members[k] == t.members[k].(defaults := u.members[k].defaults)
  }

  lemma {:induction false} DefaultsReplay(t: Tables, events: seq<Event>, a: Address)
    requires a in t.circles
    requires forall i :: 0 <= i < |events| ==>
      events[i].payload.Defaulted? && events[i].payload.circle == a && events[i].contractId == a
    ensures Replay(t, events).Done? && SameButDefaults(t, Replay(t, events).value)
    decreases events
  {
    if events != [] {
      var u := Handle(t, events[0]).value;
      assert SameButDefaults(t, u);
      DefaultsReplay(u, events[1..], a);
    }
  }

  lemma {:induction false} PenaltyEvents(c: Circle, a: Address, i: nat)
    requires i <= |c.rotation|
    ensures forall k :: 0 <= k < |PenaliseFrom(c, a, i).events| ==>
      PenaliseFrom(c, a, i).events[k].Defaulted? && PenaliseFrom(c, a, i).events[k].circle == a
    decreases |c.rotation| - i
  {
    if i < |c.rotation| {
      if Penalisable(c, c.rotation[i]) {
        PenaltyEvents(Penalise(c, a, c.rotation[i]).circle, a, i + 1);
      } else {
        PenaltyEvents(c, a, i + 1);
      }
    }
  }

  /** The circle mirrored, except that the round being settled may already have its exceptional row. */
  ghost predicate MirrorsSettling(c: Circle, a: Address, t: Tables, pot: int) {
    var key := PayoutKey(a, c.roundIndex);
    && c.roundIndex < |c.rotation|
    && a in t.circles && RowMirrors(c, t.circles[a])
    && MembersMirror(c, a, t.members)
    && PayoutsMirror(c, a, map k | k in t.payouts && k != key :: t.payouts[k])
    && (key !in t.payouts ==> pot == c.roundAmount * |c.rotation|)
    && (key in t.payouts ==>
          t.payouts[key].isExceptional && t.payouts[key].recipient == c.rotation[c.roundIndex])
  }

  /** Payout rows for every round up to the current one, and no other. */
  ghost predicate PaidUpTo(c: Circle, a: Address, rows: map<PayoutKey, PayoutRow>) {
    c.roundIndex < |c.rotation| && forall r: nat ::
      && (PayoutKey(a, r) in rows <==> r <= c.roundIndex)
      && (r <= c.roundIndex ==>
            && rows[PayoutKey(a, r)].recipient == c.rotation[r]
            && (!rows[PayoutKey(a, r)].isExceptional ==> rows[PayoutKey(a, r)].amount == c.roundAmount * |c.rotation|))
  }

  /** Adding, or keeping, the row of the round being settled. */
  lemma {:induction false} PaidRowAdded(c: Circle, a: Address, rows: map<PayoutKey, PayoutRow>, row: PayoutRow)
    requires var key := PayoutKey(a, c.roundIndex);
             PayoutsMirror(c, a, map k | k in rows && k != key :: rows[k])
    requires WellFormed(c) && c.status.StActive? && row.recipient == c.rotation[c.roundIndex]
    requires !row.isExceptional ==> row.amount == c.roundAmount * |c.rotation|
    ensures PaidUpTo(c, a, rows[PayoutKey(a, c.roundIndex) := row])
  {
    var key := PayoutKey(a, c.roundIndex);
    var others, after := map k | k in rows && k != key :: rows[k], rows[key := row];
    forall r: nat
      ensures PayoutKey(a, r) in after <==> r <= c.roundIndex
      ensures r <= c.roundIndex ==>
                && after[PayoutKey(a, r)].recipient == c.rotation[r]
                && (!after[PayoutKey(a, r)].isExceptional ==> after[PayoutKey(a, r)].amount == c.roundAmount * |c.rotation|)
    {
      assert r != c.roundIndex ==> (PayoutKey(a, r) in others <==> r < c.roundIndex);
    }
  }

  lemma {:induction false} PaidOutMirrors(c: Circle, a: Address, t: Tables, e: Event, pot: int)
    requires WellFormed(c) && c.status.StActive? && MirrorsSettling(c, a, t, pot)
    requires e.payload == PaidOut(a, c.rotation[c.roundIndex], pot, c.roundIndex) && e.contractId == a
    ensures Handle(t, e).Done?
    ensures var u := Handle(t, e).value;
            && a in u.circles && u.circles[a] == t.circles[a].(currentRound := c.roundIndex + 1)
            && u.members == t.members && PaidUpTo(c, a, u.payouts)
  {
    HandleIs(t, e);
    var key, u := PayoutKey(a, c.roundIndex), OnPaidOut(t, e).value;
    PaidRowAdded(c, a, t.payouts, u.payouts[key]);
    assert u.payouts == t.payouts[key := u.payouts[key]];
  }

  /** All that is mirrored but the status, after the round's payout row is in place. */
  ghost predicate MirrorsPaid(c: Circle, a: Address, t: Tables) {
    && c.roundIndex < |c.rotation|
    && a in t.circles && RowMirrors(c, t.circles[a].(currentRound := c.roundIndex))
    && t.circles[a].currentRound == c.roundIndex + 1
    && MembersMirror(c, a, t.members)
    && PaidUpTo(c, a, t.payouts)
  }

  lemma {:induction false} ScoreReplays(c: Circle, a: Address, t: Tables, e: Event, pot: int)
    requires MirrorsSettling(c, a, t, pot) && e.payload.ScoreUpdated? && e.contractId == Publisher(e.payload, a)
    ensures Handle(t, e).Done? && MirrorsSettling(c, a, Handle(t, e).value, pot)
  {
    HandleIs(t, e);
    assert Handle(t, e).value.payouts == t.payouts;
  }

  lemma {:induction false} PayoutReplays(c: Circle, a: Address, t: Tables, e: Event, pot: int)
    requires WellFormed(c) && c.status.StActive? && MirrorsSettling(c, a, t, pot)
    requires e.payload == PaidOut(a, c.rotation[c.roundIndex], pot, c.roundIndex) && e.contractId == a
    ensures Handle(t, e).Done? && MirrorsPaid(c, a, Handle(t, e).value)
  {
    PaidOutMirrors(c, a, t, e, pot);
  }

  lemma {:induction false} CompletedMirrors(c: Circle, a: Address, t: Tables, e: Event)
    requires WellFormed(c) && c.status.StActive? && c.roundIndex + 1 == |c.rotation| && MirrorsPaid(c, a, t)
    requires e.payload.Completed? && e.payload.circle == a == e.contractId
    ensures Handle(t, e).Done? && Mirrors(c.(status := StCompleted), a, Handle(t, e).value)
  {
    HandleIs(t, e);
  }

  lemma {:induction false} NextRoundMirrors(c: Circle, d: Circle, a: Address, t: Tables, e: Event)
    requires WellFormed(c) && c.status.StActive? && MirrorsPaid(c, a, t)
    requires e.payload.RoundStarted? && e.payload.circle == a == e.contractId
    requires e.payload.round == c.roundIndex + 1
    requires d == c.(roundIndex := c.roundIndex + 1, deadline := d.deadline, contributed := {}, defaulted := {})
    ensures Handle(t, e).Done? && Mirrors(d, a, Handle(t, e).value)
  {
    HandleIs(t, e);
  }

  /** `completed` or `round_started` after the round's payout row is in place. */
  lemma {:induction false} AdvanceMirrors(c: Circle, a: Address, t: Tables, now: nat, e: Event)
    requires WellFormed(c) && c.status.StActive? && MirrorsPaid(c, a, t)
    requires [e.payload] == Advance(c, a, now).events && e.contractId == a
    ensures Handle(t, e).Done? && Mirrors(Advance(c, a, now).circle, a, Handle(t, e).value)
  {
    assert e.payload == Advance(c, a, now).events[0];
    if c.roundIndex + 1 >= |c.rotation| {
      CompletedMirrors(c, a, t, e);
    } else {
      NextRoundMirrors(c, Advance(c, a, now).circle, a, t, e);
    }
  }

  lemma {:induction false} ReplayThree(t: Tables, e: Event, f: Event, g: Event)
    requires Handle(t, e).Done? && Handle(Handle(t, e).value, f).Done?
    ensures Replay(t, [e, f, g]) == Handle(Handle(Handle(t, e).value, f).value, g)
  {
    ReplayTwo(t, e, f);
    assert [e, f, g] == [e, f] + [g];
    ReplayAppend(t, [e, f], [g]);
    ReplayOne(Replay(t, [e, f]).value, g);
  }

  lemma {:induction false} CarriesThree(events: seq<Event>, p: Payload, q: Payload, last: seq<Payload>, a: Address)
    requires |last| == 1 && Carries(events, [p, q] + last, a)
    ensures events == [events[0], events[1], events[2]]
    ensures events[0].payload == p && events[0].contractId == Publisher(p, a)
    ensures events[1].payload == q && events[1].contractId == Publisher(q, a)
    ensures [events[2].payload] == last && events[2].contractId == Publisher(last[0], a)
  {
  }

  /** score, payout, then `completed` or `round_started`. */
  lemma {:induction false} SettleTail(c: Circle, a: Address, t: Tables, pot: int, now: nat, score: nat, events: seq<Event>)
    requires WellFormed(c) && c.status.StActive? && MirrorsSettling(c, a, t, pot)
    requires Carries(events,
                     [ScoreUpdated(c.rotation[c.roundIndex], score), PaidOut(a, c.rotation[c.roundIndex], pot, c.roundIndex)]
                     + Advance(c, a, now).events, a)
    ensures ReplaysTo(t, events, Advance(c, a, now).circle, a)
  {
    CarriesThree(events, ScoreUpdated(c.rotation[c.roundIndex], score),
                 PaidOut(a, c.rotation[c.roundIndex], pot, c.roundIndex), Advance(c, a, now).events, a);
    ScoreReplays(c, a, t, events[0], pot);
    var scored := Handle(t, events[0]).value;
    PayoutReplays(c, a, scored, events[1], pot);
    AdvanceMirrors(c, a, Handle(scored, events[1]).value, now, events[2]);
    ReplayThree(t, events[0], events[1], events[2]);
  }

  /** `collateral_released` is not projected: replaying a run of releases changes nothing. */
  lemma {:induction false} ReleasesReplay(t: Tables, events: seq<Event>, a: Address)
    requires forall i :: 0 <= i < |events| ==>
      events[i].payload.CollateralReleased? && events[i].payload.circle == a && events[i].contractId == a
    ensures Replay(t, events) == Done(t)
    decreases events
  {
    if events != [] {
      assert Handle(t, events[0]) == Done(t);
      ReleasesReplay(t, events[1..], a);
    }
  }

  lemma {:induction false} ReleaseEvents(c: Circle, a: Address, i: nat)
    requires i <= |c.rotation|
    ensures forall k :: 0 <= k < |Releases(c, a, i)| ==>
      Releases(c, a, i)[k].CollateralReleased? && Releases(c, a, i)[k].circle == a
    decreases |c.rotation| - i
  {
    if i < |c.rotation| {
      ReleaseEvents(c, a, i + 1);
    }
  }

  lemma {:induction false} InsertRotationFresh(rows: map<MemberKey, MemberRow>, a: Address, members: seq<Address>, n: nat)
    requires n <= |members| && Distinct(members)
    requires forall k: MemberKey :: k in rows ==> k.circle != a
    ensures var r := InsertRotation(rows, a, members, n);
            && (forall m :: MemberKey(a, m) in r <==> m in members[..n])
            && (forall i :: 0 <= i < n ==>
                  MemberKey(a, members[i]) in r && r[MemberKey(a, members[i])] == MemberRow(i, None, 0, 0))
  {
    if n > 0 {
      InsertRotationFresh(rows, a, members, n - 1);
      var key := MemberKey(a, members[n - 1]);
      assert members[..n] == members[..n - 1] + [members[n - 1]];
      assert members[n - 1] !in members[..n - 1];
      assert key !in InsertRotation(rows, a, members, n - 1);
    }
  }

  lemma {:induction false} CreateMirrors(t: Tables, s: Submitted, events: seq<Event>, w: Circles)
    requires AllWellFormed(w) && s.tx.Create? && Execute(w, s).Some?
    requires Blank(s.tx.addr, t)
    requires Carries(events, Execute(w, s).value.events, s.tx.addr)
    ensures ReplaysTo(t, events, Execute(w, s).value.circle, s.tx.addr)
  {
    var a, c := s.tx.addr, Execute(w, s).value.circle;
    assert events == [events[0], events[1]];
    ReplayTwo(t, events[0], events[1]);
    HandleIs(t, events[0]);
    InsertRotationFresh(t.members, a, c.rotation, |c.rotation|);
    assert c.rotation[..|c.rotation|] == c.rotation;
    var u := OnInitialized(t, events[0]).value;
    HandleIs(u, events[1]);
    var v := OnCircleCreated(u, events[1]).value;
    assert MembersMirror(c, a, v.members);
    assert forall r: nat :: PayoutKey(a, r) !in v.payouts;
  }

  /** Entry points that publish one event about the circle. */
  lemma {:induction false} CancelMirrors(c: Circle, a: Address, op: Op, now: nat, t: Tables, events: seq<Event>)
    requires WellFormed(c) && Mirrors(c, a, t) && Exec(c, a, op, now).Some?
    requires op.Cancel?
    requires Carries(events, Exec(c, a, op, now).value.events, a)
    ensures ReplaysTo(t, events, Exec(c, a, op, now).value.circle, a)
  {
    assert events == [events[0]];
    ReplayOne(t, events[0]);
    HandleIs(t, events[0]);
  }

  lemma {:induction false} ContributeMirrors(c: Circle, a: Address, op: Op, now: nat, t: Tables, events: seq<Event>)
    requires WellFormed(c) && Mirrors(c, a, t) && Exec(c, a, op, now).Some?
    requires op.Contribute?
    requires Carries(events, Exec(c, a, op, now).value.events, a)
    ensures ReplaysTo(t, events, Exec(c, a, op, now).value.circle, a)
  {
    assert events == [events[0]];
    ReplayOne(t, events[0]);
    HandleIs(t, events[0]);
  }

  lemma {:induction false} PauseResumeMirrors(c: Circle, a: Address, op: Op, now: nat, t: Tables, events: seq<Event>)
    requires WellFormed(c) && Mirrors(c, a, t) && Exec(c, a, op, now).Some?
    requires op.Pause? || op.Resume?
    requires Carries(events, Exec(c, a, op, now).value.events, a)
    ensures ReplaysTo(t, events, Exec(c, a, op, now).value.circle, a)
  {
    assert events == [events[0]];
    ReplayOne(t, events[0]);
    HandleIs(t, events[0]);
  }

  /** The `joined` handler marks the member's row and leaves its slot alone. */
  lemma {:induction false} JoinedRow(c: Circle, a: Address, m: Address, t: Tables, e: Event)
    requires MembersMirror(c, a, t.members) && m in c.rotation
    requires e.payload.Joined? && e.payload.circle == a == e.contractId && e.payload.member == m
    requires 1 <= e.payload.joinOrder && 0 <= e.payload.collateral
    ensures Handle(t, e).Done?
    ensures var u := Handle(t, e).value;
            && u.circles == t.circles && u.payouts == t.payouts
            && MembersMirror(c.(collateral := c.collateral[m := e.payload.collateral]), a, u.members)
  {
    HandleIs(t, e);
    assert MemberKey(a, m) in t.members;
  }

  lemma {:induction false} JoinMirrors(c: Circle, a: Address, m: Address, now: nat, t: Tables, events: seq<Event>)
    requires WellFormed(c) && Mirrors(c, a, t) && Exec(c, a, Join(m), now).Some?
    requires Carries(events, Exec(c, a, Join(m), now).value.events, a)
    ensures ReplaysTo(t, events, Exec(c, a, Join(m), now).value.circle, a)
  {
    if |events| == 1 {
      assert events == [events[0]];
      ReplayOne(t, events[0]);
      JoinedRow(c, a, m, t, events[0]);
    } else {
      assert events == [events[0], events[1]];
      ReplayTwo(t, events[0], events[1]);
      HandleIs(t, events[0]);
      JoinedRow(c, a, m, SetStatus(t, a, RowActive), events[1]);
    }
  }

  lemma {:induction false} DefaultMirrors(c: Circle, a: Address, m: Address, now: nat, t: Tables, events: seq<Event>)
    requires WellFormed(c) && Mirrors(c, a, t) && Exec(c, a, MarkDefault(m), now).Some?
    requires Carries(events, Exec(c, a, MarkDefault(m), now).value.events, a)
    ensures ReplaysTo(t, events, Exec(c, a, MarkDefault(m), now).value.circle, a)
  {
    DefaultsReplay(t, events, a);
  }

  lemma {:induction false} PayoutMirrors(c: Circle, a: Address, score: nat, now: nat, t: Tables, events: seq<Event>)
    requires WellFormed(c) && Mirrors(c, a, t) && Exec(c, a, Payout(score), now).Some?
    requires Carries(events, Exec(c, a, Payout(score), now).value.events, a)
    ensures ReplaysTo(t, events, Exec(c, a, Payout(score), now).value.circle, a)
  {
    var key := PayoutKey(a, c.roundIndex);
    assert key !in t.payouts;
    assert (map k | k in t.payouts && k != key :: t.payouts[k]) == t.payouts;
    SettleTail(c, a, t, c.roundAmount * |c.rotation|, now, score, events);
  }

  /** The closing event alone leaves the rows a mirror of the closed circle. */
  lemma {:induction false} ClosedMirrors(c: Circle, a: Address, closer: Address, now: nat, t: Tables, e: Event)
    requires WellFormed(c) && Mirrors(c, a, t) && Exec(c, a, Close(closer), now).Some?
    requires e.payload.Closed? && e.payload.circle == a == e.contractId
    ensures Handle(t, e).Done? && Mirrors(Exec(c, a, Close(closer), now).value.circle, a, Handle(t, e).value)
  {
    HandleIs(t, e);
  }

  /** Released collateral is ignored, so only the closing event counts. */
  lemma {:induction false} CloseReplays(c: Circle, a: Address, t: Tables, events: seq<Event>, closed: Payload)
    requires closed.Closed? && closed.circle == a && Carries(events, Releases(c, a, 0) + [closed], a)
    ensures Replay(t, events) == Handle(t, events[|events| - 1])
  {
    var n := |events| - 1;
    ReleaseEvents(c, a, 0);
    ReleasesReplay(t, events[..n], a);
    assert events == events[..n] + [events[n]];
    ReplayAppend(t, events[..n], [events[n]]);
    ReplayOne(t, events[n]);
  }

  lemma {:induction false} CloseMirrors(c: Circle, a: Address, closer: Address, now: nat, t: Tables, events: seq<Event>)
    requires WellFormed(c) && Mirrors(c, a, t) && Exec(c, a, Close(closer), now).Some?
    requires Carries(events, Exec(c, a, Close(closer), now).value.events, a)
    ensures ReplaysTo(t, events, Exec(c, a, Close(closer), now).value.circle, a)
  {
    var payloads := Exec(c, a, Close(closer), now).value.events;
    CloseReplays(c, a, t, events, payloads[|payloads| - 1]);
    ClosedMirrors(c, a, closer, now, t, events[|events| - 1]);
  }

  lemma {:induction false} CarriesSplit(events: seq<Event>, p: seq<Payload>, x: Payload, q: seq<Payload>, a: Address)
    requires Carries(events, p + [x] + q, a)
    ensures Carries(events[..|p|], p, a)
    ensures events[|p|].payload == x && events[|p|].contractId == Publisher(x, a)
    ensures Carries(events[|p| + 1..], q, a)
    ensures events == events[..|p|] + ([events[|p|]] + events[|p| + 1..])
  {
    forall i | 0 <= i < |q|
      ensures events[|p| + 1..][i].payload == q[i] && events[|p| + 1..][i].contractId == Publisher(q[i], a)
    {
      assert (p + [x] + q)[|p| + 1 + i] == q[i];
    }
  }

  /** The last part of `settle_round`, from the exceptional row on. */
  lemma {:induction false} SettleRest(c: Circle, a: Address, t: Tables, now: nat, score: nat, e: Event, rest: seq<Event>)
    requires WellFormed(c) && c.status.StActive? && Mirrors(c, a, t)
    requires e.payload.ExceptionalSettlement? && e.payload.circle == a == e.contractId
    requires e.payload.round == c.roundIndex && e.payload.recipient == c.rotation[c.roundIndex]
    requires Carries(rest,
                     [ScoreUpdated(c.rotation[c.roundIndex], score),
                      PaidOut(a, c.rotation[c.roundIndex], e.payload.pot, c.roundIndex)]
                     + Advance(c, a, now).events, a)
    ensures ReplaysTo(t, [e] + rest, Advance(c, a, now).circle, a)
  {
    SettleTail(c, a, Handle(t, e).value, e.payload.pot, now, score, rest);
    assert ([e] + rest)[1..] == rest;
  }

  function SettledEvent(c: Circle, a: Address): Payload
    requires WellFormed(c) && c.status.StActive?
  {
    ContributedBound(c);
    ExceptionalSettlement(a, c.rotation[c.roundIndex], c.roundAmount * |c.contributed|, c.roundIndex,
                          |c.rotation| - |c.contributed|)
  }

  function SettleTailEvents(c: Circle, a: Address, score: nat, now: nat): seq<Payload>
    requires WellFormed(c) && c.status.StActive?
  {
    PenaliseKeeps(c, a, 0);
    var recipient := c.rotation[c.roundIndex];
    [ScoreUpdated(recipient, score), PaidOut(a, recipient, c.roundAmount * |c.contributed|, c.roundIndex)]
    + Advance(PenaliseFrom(c, a, 0).circle, a, now).events
  }

  /** The order in which an exceptional settlement publishes its events. */
  lemma {:induction false} SettleEvents(c: Circle, a: Address, score: nat, now: nat)
    requires WellFormed(c) && Exec(c, a, SettleRound(score), now).Some?
    ensures c.status.StActive?
    ensures Exec(c, a, SettleRound(score), now).value.events
         == PenaliseFrom(c, a, 0).events + [SettledEvent(c, a)] + SettleTailEvents(c, a, score, now)
    ensures Exec(c, a, SettleRound(score), now).value.circle == SettledCircle(c, a, now)
  {
    PenaliseKeeps(c, a, 0);
    var flagged, recipient := PenaliseFrom(c, a, 0), c.rotation[c.roundIndex];
    Grouped(flagged.events + [SettledEvent(c, a)],
            [ScoreUpdated(recipient, score), PaidOut(a, recipient, c.roundAmount * |c.contributed|, c.roundIndex)],
            Advance(flagged.circle, a, now).events);
  }

  lemma {:induction false} Grouped(p: seq<Payload>, q: seq<Payload>, r: seq<Payload>)
    ensures p + q + r == p + (q + r)
  {
  }

  function SettledCircle(c: Circle, a: Address, now: nat): Circle
    requires WellFormed(c)
  {
    PenaliseKeeps(c, a, 0);
    Advance(PenaliseFrom(c, a, 0).circle, a, now).circle
  }

  /** From the flagged circle on: the exceptional row, score, payout and advance. */
  lemma {:induction false} FlaggedSettles(c: Circle, a: Address, t: Tables, now: nat, score: nat, e: Event, rest: seq<Event>)
    requires WellFormed(c) && c.status.StActive? && Mirrors(PenaliseFrom(c, a, 0).circle, a, t)
    requires e.payload == SettledEvent(c, a) && e.contractId == a
    requires Carries(rest, SettleTailEvents(c, a, score, now), a)
    ensures ReplaysTo(t, [e] + rest, SettledCircle(c, a, now), a)
  {
    PenaliseKeeps(c, a, 0);
    SettleRest(PenaliseFrom(c, a, 0).circle, a, t, now, score, e, rest);
  }

  lemma {:induction false} ReplaysOn(t: Tables, first: seq<Event>, rest: seq<Event>, c: Circle, a: Address)
    requires Replay(t, first).Done? && ReplaysTo(Replay(t, first).value, rest, c, a)
    ensures ReplaysTo(t, first + rest, c, a)
  {
    ReplayAppend(t, first, rest);
  }

  /** The flagged defaults of a settlement leave the rows a mirror of the flagged circle. */
  lemma {:induction false} FlagsMirror(c: Circle, a: Address, t: Tables, events: seq<Event>)
    requires WellFormed(c) && c.status.StActive? && Mirrors(c, a, t)
    requires Carries(events, PenaliseFrom(c, a, 0).events, a)
    ensures Replay(t, events).Done? && Mirrors(PenaliseFrom(c, a, 0).circle, a, Replay(t, events).value)
  {
    PenaliseKeeps(c, a, 0);
    PenaltyEvents(c, a, 0);
    DefaultsReplay(t, events, a);
  }

  lemma {:induction false} SettleMirrors(c: Circle, a: Address, score: nat, now: nat, t: Tables, events: seq<Event>)
    requires WellFormed(c) && Mirrors(c, a, t) && Exec(c, a, SettleRound(score), now).Some?
    requires Carries(events, Exec(c, a, SettleRound(score), now).value.events, a)
    ensures ReplaysTo(t, events, Exec(c, a, SettleRound(score), now).value.circle, a)
  {
    SettleEvents(c, a, score, now);
    var flags := PenaliseFrom(c, a, 0).events;
    var n := |flags|;
    CarriesSplit(events, flags, SettledEvent(c, a), SettleTailEvents(c, a, score, now), a);
    FlagsMirror(c, a, t, events[..n]);
    FlaggedSettles(c, a, Replay(t, events[..n]).value, now, score, events[n], events[n + 1..]);
    ReplaysOn(t, events[..n], [events[n]] + events[n + 1..], SettledCircle(c, a, now), a);
  }

  // ----- Whole histories -----

  lemma {:induction false} CallMirrors(c: Circle, a: Address, op: Op, now: nat, t: Tables, events: seq<Event>)
    requires WellFormed(c) && Mirrors(c, a, t) && Exec(c, a, op, now).Some?
    requires Carries(events, Exec(c, a, op, now).value.events, a)
    ensures ReplaysTo(t, events, Exec(c, a, op, now).value.circle, a)
  {
    match op
    case Join(m) => JoinMirrors(c, a, m, now, t, events);
    case MarkDefault(m) => DefaultMirrors(c, a, m, now, t, events);
    case Payout(score) => PayoutMirrors(c, a, score, now, t, events);
    case SettleRound(score) => SettleMirrors(c, a, score, now, t, events);
    case Close(closer) => CloseMirrors(c, a, closer, now, t, events);
    case Cancel(_) => CancelMirrors(c, a, op, now, t, events);
    case Contribute(_) => ContributeMirrors(c, a, op, now, t, events);
    case _ => PauseResumeMirrors(c, a, op, now, t, events);
  }

  lemma {:induction false} ExecuteMirrors(w: Circles, s: Submitted, t: Tables, events: seq<Event>)
    requires AllWellFormed(w) && Reflects(w, t) && Execute(w, s).Some?
    requires Carries(events, Execute(w, s).value.events, s.tx.addr)
    ensures ReplaysTo(t, events, Execute(w, s).value.circle, s.tx.addr)
  {
    if s.tx.Create? {
      CreateMirrors(t, s, events, w);
    } else {
      CallMirrors(w[s.tx.addr], s.tx.addr, s.tx.op, s.ledger, t, events);
    }
  }

  lemma {:induction false} FramedMirrors(c: Circle, b: Address, a: Address, t: Tables, u: Tables)
    requires b != a && SameElsewhere(a, t, u) && Mirrors(c, b, t)
    ensures Mirrors(c, b, u)
  {
    forall m ensures MemberKey(b, m) in u.members <==> m in c.rotation {
      assert MemberKey(b, m).circle != a;
    }
    forall i | 0 <= i < |c.rotation|
      ensures MemberKey(b, c.rotation[i]) in u.members && u.members[MemberKey(b, c.rotation[i])].payoutOrder == i
    {
      assert MemberKey(b, c.rotation[i]).circle != a;
    }
    forall m | m in c.rotation
      ensures u.members[MemberKey(b, m)].joinOrder.Some? <==> m in c.collateral
    {
      assert MemberKey(b, m).circle != a;
    }
    forall r: nat
      ensures PayoutKey(b, r) in u.payouts <==> PayoutKey(b, r) in t.payouts
      ensures PayoutKey(b, r) in t.payouts ==> u.payouts[PayoutKey(b, r)] == t.payouts[PayoutKey(b, r)]
    {
      assert PayoutKey(b, r).circle != a;
    }
  }

  lemma {:induction false} FramedBlank(b: Address, a: Address, t: Tables, u: Tables)
    requires b != a && SameElsewhere(a, t, u) && Blank(b, t)
    ensures Blank(b, u)
  {
  }

  /** A change to one circle and its rows alone. */
  lemma {:induction false} CircleReflects(w: Circles, a: Address, c: Circle, t: Tables, u: Tables)
    requires Reflects(w, t) && SameElsewhere(a, t, u) && Mirrors(c, a, u)
    ensures Reflects(w[a := c], u)
  {
    forall b | b in w && b != a ensures Mirrors(w[b], b, u) {
      FramedMirrors(w[b], b, a, t, u);
    }
    forall b | b !in w && b != a ensures Blank(b, u) {
      FramedBlank(b, a, t, u);
    }
  }

  /** One transaction: its events replay without a failure and the tables reflect the new chain state. */
  lemma {:induction false} StepReflects(c: ChainState, s: Submitted, t: Tables)
    requires AllWellFormed(c.circles) && Reflects(c.circles, t) && Replay(EMPTY_TABLES, c.events) == Done(t)
    ensures Replay(EMPTY_TABLES, Step(c, s).events).Done?
    ensures Reflects(Step(c, s).circles, Replay(EMPTY_TABLES, Step(c, s).events).value)
  {
    if Execute(c.circles, s).Some? {
      var a, effect := s.tx.addr, Execute(c.circles, s).value;
      var events := Stamp(effect.events, s, |c.events|);
      ExecuteMirrors(c.circles, s, t, events);
      PayloadsConcern(c.circles, s);
      ReplayFrame(a, t, events);
      ReplayAppend(EMPTY_TABLES, c.events, events);
      CircleReflects(c.circles, a, effect.circle, t, Replay(t, events).value);
    }
  }

  /** A transaction on circle `a` only publishes creation events about `a`. */
  lemma {:induction false} CallsCreateNothing(c: Circle, a: Address, op: Op, now: nat)
    requires WellFormed(c) && Exec(c, a, op, now).Some?
    ensures forall p :: p in Exec(c, a, op, now).value.events ==> !p.CircleCreated?
  {
    match op
    case SettleRound(score) => SettlementCreatesNothing(c, a, score, now);
    case Close(closer) => CloseCreatesNothing(c, a, closer, now);
    case _ =>
  }

  lemma {:induction false} SettlementCreatesNothing(c: Circle, a: Address, score: nat, now: nat)
    requires WellFormed(c) && Exec(c, a, SettleRound(score), now).Some?
    ensures forall p :: p in Exec(c, a, SettleRound(score), now).value.events ==> !p.CircleCreated?
  {
    PenaltyEvents(c, a, 0);
    SettleEvents(c, a, score, now);
    TailCreatesNothing(c, a, score, now);
  }

  lemma {:induction false} TailCreatesNothing(c: Circle, a: Address, score: nat, now: nat)
    requires WellFormed(c) && c.status.StActive?
    ensures forall p :: p in SettleTailEvents(c, a, score, now) ==> !p.CircleCreated?
  {
  }

  lemma {:induction false} CloseCreatesNothing(c: Circle, a: Address, closer: Address, now: nat)
    requires WellFormed(c) && Exec(c, a, Close(closer), now).Some?
    ensures forall p :: p in Exec(c, a, Close(closer), now).value.events ==> !p.CircleCreated?
  {
    ReleaseEvents(c, a, 0);
  }

  lemma {:induction false} PayloadsConcern(w: Circles, s: Submitted)
    requires AllWellFormed(w) && Execute(w, s).Some?
    ensures forall i :: 0 <= i < |Execute(w, s).value.events| ==>
      (Execute(w, s).value.events[i].CircleCreated? ==> Execute(w, s).value.events[i].circle == s.tx.addr)
  {
    if s.tx.Call? {
      CallsCreateNothing(w[s.tx.addr], s.tx.addr, s.tx.op, s.ledger);
    }
  }

  /**
   * Projection refines the contract: whatever transactions ran, in whatever order and on however many
   * circles, no handler fails and every circle's rows mirror its contract state.
   */
  lemma {:induction false} HistoryReflected(h: seq<Submitted>)
    ensures Replay(EMPTY_TABLES, Run(h).events).Done?
    ensures Reflects(Run(h).circles, Replay(EMPTY_TABLES, Run(h).events).value)
  {
    if h != [] {
      HistoryReflected(h[..|h| - 1]);
      StepReflects(Run(h[..|h| - 1]), h[|h| - 1], Replay(EMPTY_TABLES, Run(h[..|h| - 1]).events).value);
    }
  }
}
