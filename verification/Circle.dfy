/**
 * The on-chain side: the circle contract as a transition system that emits events.  Deadlines, pauses,
 * defaults, exceptional settlement, cancellation and close follow the contract's entry points; a
 * panicking entry point is `None` (the transaction has no effect and emits nothing).
 */
module CircleContract {
  import opened Prelude
  import opened Events

  const MAX_MEMBERS := 256
  const COLLATERAL_MULTIPLIER := 1
  const PENALTY_BPS := 2_000
  const BPS_DENOM := 10_000
  const MIN_DEADLINE := 100
  const MAX_DEADLINE := 1_036_800
  const I128_MAX := 0x7fff_ffff_ffff_ffff_ffff_ffff_ffff_ffff

  datatype Status = StPending | StActive | StCompleted | StCancelled

  /** `contributed` and `defaulted` hold the members recorded for the current round. */
  datatype Circle = Circle(
    admin: Address, rotation: seq<Address>, roundAmount: int, deadlineLedgers: nat,
    status: Status, paused: bool, closed: bool, collateral: map<Address, int>,
    roundIndex: nat, deadline: nat, contributed: set<Address>, defaulted: set<Address>)

  datatype Op =
    | Join(member: Address)
    | Cancel(caller: Address)
    | Contribute(member: Address)
    | Payout(score: nat)
    | MarkDefault(member: Address)
    | SettleRound(score: nat)
    | Close(closer: Address)
    | Pause(sender: Address)
    | Resume(sender: Address)

  datatype Effect = Effect(circle: Circle, events: seq<Payload>)

  /** What holds of every initialized circle, after any sequence of entry points. */
  ghost predicate WellFormed(c: Circle) {
    && 2 <= |c.rotation| <= MAX_MEMBERS
    && Distinct(c.rotation)
    && 0 < c.roundAmount
    && c.roundIndex < |c.rotation|
    && c.contributed <= Elements(c.rotation) && c.defaulted <= Elements(c.rotation)
    && c.collateral.Keys <= Elements(c.rotation)
    && (c.status.StPending? ==> |c.collateral| < |c.rotation|)
    && (c.status.StActive? || c.status.StCompleted? ==> c.collateral.Keys == Elements(c.rotation))
    && (c.status.StPending? || c.status.StCancelled? ==>
          c.roundIndex == 0 && c.contributed == {} && c.defaulted == {})
    && (c.status.StCompleted? ==> c.roundIndex == |c.rotation| - 1)
    && (c.closed ==> c.status.StCompleted? || c.status.StCancelled?)
  }

  /** `initialize`: `None` when a check fails. */
  function Initialize(self: Address, admin: Address, members: seq<Address>, roundAmount: int,
                      deadlineLedgers: nat, now: nat): (r: Option<Effect>)
    ensures r.Some? ==> WellFormed(r.value.circle)
  {
    if |members| < 2 || |members| > MAX_MEMBERS || !Distinct(members) || roundAmount <= 0
       || roundAmount * |members| > I128_MAX || roundAmount * PENALTY_BPS > I128_MAX
       || deadlineLedgers < MIN_DEADLINE || deadlineLedgers > MAX_DEADLINE
    then None
    else
      Some(Effect(
        Circle(admin, members, roundAmount, deadlineLedgers, StPending, false, false, map[],
               0, now + deadlineLedgers, {}, {}),
        [Initialized(self, |members|, roundAmount, Some(members))]))
  }

  /** The payout-side tail shared by `payout` and `settle_round`: complete, or open the next round. */
  function Advance(c: Circle, self: Address, now: nat): Effect {
    var next := c.roundIndex + 1;
    if next >= |c.rotation| then
      Effect(c.(status := StCompleted), [Completed(self, |c.rotation|)])
    else
      var deadline := now + c.deadlineLedgers;
      Effect(c.(roundIndex := next, deadline := deadline, contributed := {}, defaulted := {}),
             [RoundStarted(self, next, c.rotation[next], deadline)])
  }

  function Penalty(collateral: int): int {
    collateral * PENALTY_BPS / BPS_DENOM
  }

  /** `mark_default` for one member: penalise the collateral and flag the member. */
  function Penalise(c: Circle, self: Address, m: Address): Effect
    requires m in c.collateral
  {
    var penalty := Penalty(c.collateral[m]);
    var left := c.collateral[m] - penalty;
    Effect(c.(collateral := c.collateral[m := left], defaulted := c.defaulted + {m}),
           [Defaulted(self, m, penalty, c.roundIndex, left)])
  }

  predicate Penalisable(c: Circle, m: Address) {
    m !in c.contributed && m in c.collateral && c.collateral[m] > 0 && m !in c.defaulted
  }

  /** `settle_round`'s first phase: walk the rotation from slot `i`, penalising unflagged non-contributors. */
  function PenaliseFrom(c: Circle, self: Address, i: nat): Effect
    requires i <= |c.rotation|
    decreases |c.rotation| - i
  {
    if i == |c.rotation| then Effect(c, [])
    else if Penalisable(c, c.rotation[i]) then
      var here := Penalise(c, self, c.rotation[i]);
      var rest := PenaliseFrom(here.circle, self, i + 1);
      Effect(rest.circle, here.events + rest.events)
    else PenaliseFrom(c, self, i + 1)
  }

  /** `close`: one release event per member with collateral left, in rotation order. */
  function Releases(c: Circle, self: Address, i: nat): seq<Payload>
    requires i <= |c.rotation|
    decreases |c.rotation| - i
  {
    if i == |c.rotation| then []
    else
      var m := c.rotation[i];
      (if m in c.collateral && c.collateral[m] > 0 then [CollateralReleased(self, m, c.collateral[m])] else [])
      + Releases(c, self, i + 1)
  }

  function Released(c: Circle, i: nat): int
    requires i <= |c.rotation|
    decreases |c.rotation| - i
  {
    if i == |c.rotation| then 0
    else
      var m := c.rotation[i];
      (if m in c.collateral && c.collateral[m] > 0 then c.collateral[m] else 0) + Released(c, i + 1)
  }

  function DoJoin(c: Circle, self: Address, m: Address, now: nat): Option<Effect> {
    if c.paused || !c.status.StPending? || m !in c.rotation || m in c.collateral then None
    else
      var amount := c.roundAmount * COLLATERAL_MULTIPLIER;
      var joined := c.(collateral := c.collateral[m := amount]);
      var order := |joined.collateral|;
      var event := Joined(self, m, order, amount);
      if order == |c.rotation| then
        var deadline := now + c.deadlineLedgers;
        Some(Effect(joined.(status := StActive, deadline := deadline), [Activated(self, deadline), event]))
      else Some(Effect(joined, [event]))
  }

  /** Emissions of `payout` and `settle_round` after the pot is known; the score event comes from reputation. */
  function Settle(c: Circle, self: Address, pot: int, now: nat, before: seq<Payload>, score: nat): Effect
    requires c.roundIndex < |c.rotation|
  {
    var recipient := c.rotation[c.roundIndex];
    var tail := Advance(c, self, now);
    Effect(tail.circle,
           before + [ScoreUpdated(recipient, score), PaidOut(self, recipient, pot, c.roundIndex)] + tail.events)
  }

  function Exec(c: Circle, self: Address, op: Op, now: nat): Option<Effect>
    requires WellFormed(c)
  {
    match op
    case Join(m) => DoJoin(c, self, m, now)
    case Cancel(caller) =>
      if c.paused || !c.status.StPending? || caller !in c.rotation then None
      else Some(Effect(c.(status := StCancelled), [Cancelled(self, caller, now)]))
    case Contribute(m) =>
      if c.paused || !c.status.StActive? || now > c.deadline || m !in c.rotation || m in c.contributed then None
      else Some(Effect(c.(contributed := c.contributed + {m}),
                       [Contributed(self, m, c.roundIndex, c.roundAmount)]))
    case Payout(score) =>
      if c.paused || !c.status.StActive? || |c.contributed| != |c.rotation| then None
      else Some(Settle(c, self, c.roundAmount * |c.rotation|, now, [], score))
    case MarkDefault(m) =>
      if c.paused || !c.status.StActive? || now <= c.deadline || m !in c.rotation || !Penalisable(c, m) then None
      else Some(Penalise(c, self, m))
    case SettleRound(score) =>
      if c.paused || !c.status.StActive? || now <= c.deadline || |c.contributed| == |c.rotation| then None
      else
        var flagged := PenaliseFrom(c, self, 0);
        var pot := c.roundAmount * |c.contributed|;
        PenaliseKeeps(c, self, 0);
        ContributedBound(c);
        Some(Settle(flagged.circle, self, pot, now,
                    flagged.events
                    + [ExceptionalSettlement(self, c.rotation[c.roundIndex], pot, c.roundIndex,
                                             |c.rotation| - |c.contributed|)],
                    score))
    case Close(closer) =>
      if c.paused || c.closed || !(c.status.StCompleted? || c.status.StCancelled?)
         || !(closer == c.admin || closer in c.rotation) then None
      else
        var reason := if c.status.StCompleted? then ReasonCompleted else ReasonCancelled;
        Some(Effect(
          c.(closed := true, collateral := map m | m in c.collateral :: 0),
          Releases(c, self, 0)
          + [Closed(self, closer, Released(c, 0), c.roundAmount * COLLATERAL_MULTIPLIER * |c.rotation|, reason)]))
    case Pause(sender) =>
      if sender != c.admin || c.paused then None
      else Some(Effect(c.(paused := true), [Paused(self, sender, now)]))
    case Resume(sender) =>
      if sender != c.admin || !c.paused then None
      else Some(Effect(c.(paused := false), [Resumed(self, sender, now)]))
  }

  /** No more members have contributed than there are members. */
  lemma {:induction false} ContributedBound(c: Circle)
    requires WellFormed(c)
    ensures |c.contributed| <= |c.rotation|
  {
    DistinctCardinality(c.rotation);
    SubsetCardinality(c.contributed, Elements(c.rotation));
  }

  /** When an entry point does not panic. */
  ghost predicate Allowed(c: Circle, op: Op, now: nat) {
    match op
    case Join(m) => !c.paused && c.status.StPending? && m in c.rotation && m !in c.collateral
    case Cancel(caller) => !c.paused && c.status.StPending? && caller in c.rotation
    case Contribute(m) => !c.paused && c.status.StActive? && now <= c.deadline && m in c.rotation && m !in c.contributed
    case Payout(_) => !c.paused && c.status.StActive? && forall m :: m in c.rotation ==> m in c.contributed
    case MarkDefault(m) => !c.paused && c.status.StActive? && now > c.deadline && m in c.rotation && Due(c, m)
    case SettleRound(_) => !c.paused && c.status.StActive? && now > c.deadline && exists m :: m in c.rotation && m !in c.contributed
    case Close(closer) =>
      !c.paused && !c.closed && !c.status.StPending? && !c.status.StActive? && (closer == c.admin || closer in c.rotation)
    case Pause(sender) => sender == c.admin && !c.paused
    case Resume(sender) => sender == c.admin && c.paused
  }

  /** The member has not paid into this round, has not been flagged for it, and still has collateral to lose. */
  ghost predicate Due(c: Circle, m: Address) {
    m !in c.contributed && m !in c.defaulted && m in c.collateral && 0 < c.collateral[m]
  }

  lemma {:induction false} AllowedExactly(c: Circle, self: Address, op: Op, now: nat)
    requires WellFormed(c)
    ensures Exec(c, self, op, now).Some? <==> Allowed(c, op, now)
  {
    AllContributed(c);
  }

  /** As many contributors as members means that nobody is missing. */
  lemma {:induction false} AllContributed(c: Circle)
    requires WellFormed(c)
    ensures |c.contributed| == |c.rotation| <==> forall m :: m in c.rotation ==> m in c.contributed
  {
    DistinctCardinality(c.rotation);
    if forall m :: m in c.rotation ==> m in c.contributed {
      assert c.contributed == Elements(c.rotation);
    }
    if |c.contributed| == |c.rotation| {
      SubsetCardinality(c.contributed, Elements(c.rotation));
      assert forall m :: m in c.rotation ==> m in Elements(c.rotation);
    }
  }

  lemma {:induction false} InitializeExactly(self: Address, admin: Address, members: seq<Address>, roundAmount: int,
                                             deadlineLedgers: nat, now: nat)
    ensures Initialize(self, admin, members, roundAmount, deadlineLedgers, now).Some? <==>
      && 2 <= |members| <= 256 && Distinct(members)
      && 0 < roundAmount && roundAmount * |members| < 0x8000_0000_0000_0000_0000_0000_0000_0000
      && roundAmount * 2000 < 0x8000_0000_0000_0000_0000_0000_0000_0000
      && 100 <= deadlineLedgers <= 1_036_800
  {
  }

  /** From slot `i` on, every member that is due loses a fifth of its collateral and is flagged, and nobody else is touched. */
  lemma {:induction false} PenaliseExactly(c: Circle, self: Address, i: nat, j: nat)
    requires i <= j < |c.rotation| && Distinct(c.rotation)
    ensures var f, m := PenaliseFrom(c, self, i).circle, c.rotation[j];
            && (m in f.defaulted <==> m in c.defaulted || Due(c, m))
            && (m in f.collateral <==> m in c.collateral)
            && (m in c.collateral ==> f.collateral[m] == c.collateral[m] - if Due(c, m) then c.collateral[m] / 5 else 0)
    decreases j - i
  {
    var here := if Penalisable(c, c.rotation[i]) then Penalise(c, self, c.rotation[i]).circle else c;
    if i < j {
      assert c.rotation[i] != c.rotation[j];
      PenaliseExactly(here, self, i + 1, j);
    } else {
      LeftAlone(here, self, i + 1, c.rotation[j]);
    }
  }

  /** A member whose slot has been passed is not touched again. */
  lemma {:induction false} LeftAlone(c: Circle, self: Address, i: nat, m: Address)
    requires i <= |c.rotation| && m !in c.rotation[i..]
    ensures var f := PenaliseFrom(c, self, i).circle;
            && (m in f.defaulted <==> m in c.defaulted)
            && (m in f.collateral <==> m in c.collateral) && (m in c.collateral ==> f.collateral[m] == c.collateral[m])
    decreases |c.rotation| - i
  {
    if i < |c.rotation| {
      var here := if Penalisable(c, c.rotation[i]) then Penalise(c, self, c.rotation[i]).circle else c;
      assert c.rotation[i] in c.rotation[i..] && c.rotation[i + 1..] == c.rotation[i..][1..];
      LeftAlone(here, self, i + 1, m);
    }
  }

  /** What a closing circle releases: to each member all its collateral, if any is left, once. */
  lemma {:induction false} ReleasesExactly(c: Circle, self: Address, i: nat, p: Payload)
    requires i <= |c.rotation|
    ensures p in Releases(c, self, i) <==>
      exists j :: i <= j < |c.rotation| && c.rotation[j] in c.collateral && 0 < c.collateral[c.rotation[j]]
                  && p == CollateralReleased(self, c.rotation[j], c.collateral[c.rotation[j]])
    decreases |c.rotation| - i
  {
    if i < |c.rotation| {
      ReleasesExactly(c, self, i + 1, p);
    }
  }

  /** The total in the closing event is what the releases add up to. */
  lemma {:induction false} ReleasedIsSum(c: Circle, self: Address, i: nat)
    requires i <= |c.rotation|
    ensures Released(c, i) == AmountOf(Releases(c, self, i))
    decreases |c.rotation| - i
  {
    if i < |c.rotation| {
      ReleasedIsSum(c, self, i + 1);
      assert Releases(c, self, i) == Releases(c, self, i + 1) || Releases(c, self, i)[1..] == Releases(c, self, i + 1);
    }
  }

  /** A close ends with an event that names the outcome and the total released, and leaves nobody any collateral. */
  lemma {:induction false} CloseAnnounces(c: Circle, self: Address, closer: Address, now: nat)
    requires WellFormed(c) && Exec(c, self, Close(closer), now).Some?
    ensures var Effect(d, events) := Exec(c, self, Close(closer), now).value;
            var releases, last := events[..|events| - 1], events[|events| - 1];
            && (last.Closed? && last.closer == closer && last.released == AmountOf(releases))
            && (last.reason == ReasonCompleted <==> c.status.StCompleted?)
            && last.expected == c.roundAmount * |c.rotation|
            && (forall p :: p in releases ==> p.CollateralReleased?)
            && d.closed && d.status == c.status && forall m :: m in d.collateral ==> d.collateral[m] == 0
  {
    var events := Exec(c, self, Close(closer), now).value.events;
    assert events[..|events| - 1] == Releases(c, self, 0);
    ReleasedIsSum(c, self, 0);
    forall p | p in Releases(c, self, 0) ensures p.CollateralReleased? {
      ReleasesExactly(c, self, 0, p);
    }
  }

  /** The amounts of a list of release events, added up. */
  function AmountOf(events: seq<Payload>): int {
    if events == [] then 0
    else (if events[0].CollateralReleased? then events[0].amount else 0) + AmountOf(events[1..])
  }

  /** Penalising touches only collateral amounts and the defaulted flags. */
  lemma {:induction false} PenaliseKeeps(c: Circle, self: Address, i: nat)
    requires i <= |c.rotation|
    ensures var f := PenaliseFrom(c, self, i).circle;
            f == c.(collateral := f.collateral, defaulted := f.defaulted)
            && f.collateral.Keys == c.collateral.Keys
            && c.defaulted <= f.defaulted <= c.defaulted + Elements(c.rotation)
    decreases |c.rotation| - i
  {
    if i < |c.rotation| {
      if Penalisable(c, c.rotation[i]) {
        PenaliseKeeps(Penalise(c, self, c.rotation[i]).circle, self, i + 1);
      } else {
        PenaliseKeeps(c, self, i + 1);
      }
    }
  }

  /** Rounds whose pot has been paid. */
  function PaidRounds(c: Circle): nat {
    if c.status.StCompleted? then |c.rotation| else c.roundIndex
  }

  /** The statuses move along the documented edges, the number of paid rounds never goes back, closing is final. */
  ghost predicate Progresses(c: Circle, d: Circle) {
    && d.rotation == c.rotation && d.roundAmount == c.roundAmount
    && (d.status == c.status
        || (c.status.StPending? && (d.status.StActive? || d.status.StCancelled?))
        || (c.status.StActive? && d.status.StCompleted?))
    && PaidRounds(c) <= PaidRounds(d) <= PaidRounds(c) + 1
    && (c.closed ==> d.closed)
  }

  /** The last member to join leaves nobody out. */
  lemma {:induction false} JoinKeeps(c: Circle, self: Address, m: Address, now: nat)
    requires WellFormed(c) && DoJoin(c, self, m, now).Some?
    ensures var d := DoJoin(c, self, m, now).value.circle; WellFormed(d) && Progresses(c, d)
  {
    var joined := c.collateral[m := c.roundAmount * COLLATERAL_MULTIPLIER];
    DistinctCardinality(c.rotation);
    assert |joined| == |joined.Keys|;
    SubsetCardinality(joined.Keys, Elements(c.rotation));
  }

  lemma {:induction false} AdvanceKeeps(c: Circle, self: Address, now: nat)
    requires WellFormed(c) && c.status.StActive?
    ensures var d := Advance(c, self, now).circle; WellFormed(d) && Progresses(c, d)
  {
  }

  lemma {:induction false} PenaltiesKeep(c: Circle, self: Address)
    requires WellFormed(c) && c.status.StActive?
    ensures var d := PenaliseFrom(c, self, 0).circle; WellFormed(d) && d.status.StActive? && Progresses(c, d)
    ensures PenaliseFrom(c, self, 0).circle.roundIndex == c.roundIndex
  {
    PenaliseKeeps(c, self, 0);
  }

  lemma {:induction false} PenaltyKeeps(c: Circle, self: Address, m: Address)
    requires WellFormed(c) && c.status.StActive? && m in c.rotation && m in c.collateral
    ensures var d := Penalise(c, self, m).circle; WellFormed(d) && Progresses(c, d)
  {
    assert Penalise(c, self, m).circle.collateral.Keys == c.collateral.Keys;
  }

  lemma {:induction false} CloseKeeps(c: Circle, self: Address, closer: Address, now: nat)
    requires WellFormed(c) && Exec(c, self, Close(closer), now).Some?
    ensures var d := Exec(c, self, Close(closer), now).value.circle; WellFormed(d) && Progresses(c, d)
  {
    assert Exec(c, self, Close(closer), now).value.circle.collateral.Keys == c.collateral.Keys;
  }

  /** The entry points that touch neither collateral nor rounds. */
  lemma {:induction false} OthersKeep(c: Circle, self: Address, op: Op, now: nat)
    requires WellFormed(c) && Exec(c, self, op, now).Some?
    requires op.Cancel? || op.Contribute? || op.Pause? || op.Resume?
    ensures var d := Exec(c, self, op, now).value.circle; WellFormed(d) && Progresses(c, d)
  {
  }

  /** One entry point keeps the contract's invariants and only moves forward. */
  lemma {:induction false} ExecKeepsWellFormed(c: Circle, self: Address, op: Op, now: nat)
    requires WellFormed(c) && Exec(c, self, op, now).Some?
    ensures var d := Exec(c, self, op, now).value.circle; WellFormed(d) && Progresses(c, d)
  {
    match op
    case Join(m) => JoinKeeps(c, self, m, now);
    case Payout(_) => AdvanceKeeps(c, self, now);
    case MarkDefault(m) => PenaltyKeeps(c, self, m);
    case SettleRound(_) =>
      PenaltiesKeep(c, self);
      AdvanceKeeps(PenaliseFrom(c, self, 0).circle, self, now);
    case Close(closer) => CloseKeeps(c, self, closer, now);
    case _ => OthersKeep(c, self, op, now);
  }
}
