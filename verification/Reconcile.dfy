/** The per-circle reconciliation diagnostic: indexed rows against the contract's own views. */
module Reconcile {
  import opened Prelude
  import opened Events
  import opened CircleContract
  import opened Projection

  const MAX_ROWS := 512

  /** A simulated read: an answer (`None` when it has an unexpected shape), or why there is none. */
  datatype Read<+T> = Answer(shape: Option<T>) | RpcUnavailable | ContractError

  datatype Config = Config(members: seq<Address>, roundAmount: int)

  /** `latest` is `None` when the RPC cannot be reached; `round` is asked only of Pending/Active circles. */
  datatype Views = Views(
    latest: Option<nat>, config: Read<Config>, status: Read<Status>, paused: Read<bool>, closed: Read<bool>,
    round: Read<nat>)

  /** Amounts are `None` when the NUMERIC text is not an integer. */
  datatype IndexedCircle = IndexedCircle(
    status: RowStatus, currentRound: nat, memberCount: nat, roundAmount: Option<int>, paused: Option<bool>)
  datatype IndexedMember = IndexedMember(member: Address, payoutOrder: int)
  datatype IndexedPayout = IndexedPayout(
    round: int, recipient: Address, amount: Option<int>, exceptional: Option<bool>, ledger: nat)

  datatype Field =
    | MemberOrder | MemberCount | RoundAmount | StatusField | PausedField | CurrentRound
    | PayoutCount | PayoutRecipient | PayoutAmount
  datatype Classification = PossiblyStale | Drift
  datatype Mismatch = Mismatch(field: Field, key: int, classification: Classification)
  datatype Verdict = Match | Mismatched | RpcDown | Incompatible | NotIndexed
  datatype Report = Report(verdict: Verdict, mismatches: seq<Mismatch>, lag: Option<int>)

  const NO_KEY := -1

  predicate RpcFailed(v: Views) {
    v.latest.None? || v.config.RpcUnavailable? || v.status.RpcUnavailable? || v.paused.RpcUnavailable?
    || v.closed.RpcUnavailable?
  }

  /** The four basic views answered in the shape of a circle. */
  predicate Readable(v: Views) {
    && v.latest.Some?
    && v.config.Answer? && v.config.shape.Some?
    && v.status.Answer? && v.status.shape.Some?
    && v.paused.Answer? && v.paused.shape.Some?
    && v.closed.Answer? && v.closed.shape.Some?
  }

  predicate AsksRound(v: Views)
    requires Readable(v)
  {
    v.status.shape.value.StPending? || v.status.shape.value.StActive?
  }

  predicate StatusAgrees(row: RowStatus, status: Status, closed: bool) {
    match row
    case RowClosed => closed && (status.StCompleted? || status.StCancelled?)
    case RowPending => !closed && status.StPending?
    case RowActive => !closed && status.StActive?
    case RowCompleted => !closed && status.StCompleted?
    case RowCancelled => !closed && status.StCancelled?
  }

  function RotationAt(rotation: seq<Address>, i: int): Option<Address> {
    if 0 <= i < |rotation| then Some(rotation[i]) else None
  }

  /** The member indexed at slot `i`: later rows replace earlier ones. */
  function SlotAt(members: seq<IndexedMember>, i: int): Option<Address> {
    if members == [] then None
    else
      var last := members[|members| - 1];
      if last.payoutOrder == i then Some(last.member) else SlotAt(members[..|members| - 1], i)
  }

  /** The payout rows the contract state implies, when it is known. */
  function ExpectedPayouts(v: Views): Option<nat>
    requires Readable(v)
  {
    match v.status.shape.value
    case StCompleted => Some(|v.config.shape.value.members|)
    case StCancelled => Some(0)
    case _ => if v.round.Answer? then v.round.shape else None
  }

  predicate PayoutWrong(p: IndexedPayout, field: Field, v: Views)
    requires Readable(v)
  {
    var config := v.config.shape.value;
    if field.PayoutRecipient? then Some(p.recipient) != RotationAt(config.members, p.round)
    else
      field.PayoutAmount? && p.exceptional != Some(true)
      && p.amount != Some(config.roundAmount * |config.members|)
  }

  /** The field (at the row key, where it has one) really differs between the index and the chain. */
  ghost predicate Differs(field: Field, key: int, circle: IndexedCircle, members: seq<IndexedMember>,
                          payouts: seq<IndexedPayout>, v: Views)
    requires Readable(v)
  {
    var config := v.config.shape.value;
    match field
    case MemberOrder =>
      && (0 <= key < |config.members| || 0 <= key < |members|)
      && SlotAt(members, key) != RotationAt(config.members, key)
    case MemberCount => key == NO_KEY && circle.memberCount != |config.members|
    case RoundAmount => key == NO_KEY && circle.roundAmount != Some(config.roundAmount)
    case StatusField =>
      key == NO_KEY && !StatusAgrees(circle.status, v.status.shape.value, v.closed.shape.value)
    case PausedField =>
      key == NO_KEY && circle.paused.Some? && circle.paused.value != v.paused.shape.value
    case CurrentRound =>
      && key == NO_KEY && AsksRound(v) && v.round.Answer? && v.round.shape.Some?
      && circle.currentRound != v.round.shape.value
    case PayoutCount =>
      key == NO_KEY && ExpectedPayouts(v).Some? && |payouts| != ExpectedPayouts(v).value
    case _ => exists p :: p in payouts && p.round == key && PayoutWrong(p, field, v)
  }

  /** Nothing that is compared differs. */
  ghost predicate Clean(circle: IndexedCircle, members: seq<IndexedMember>, payouts: seq<IndexedPayout>, v: Views)
    requires Readable(v)
  {
    forall f, k :: !Differs(f, k, circle, members, payouts, v)
  }

  ghost predicate Reported(report: seq<Mismatch>, field: Field, key: int) {
    exists m :: m in report && m.field == field && m.key == key
  }

  /**
   * A report says exactly what differs.  Without the basic views the verdict only says why; with them,
   * a mismatch is listed if and only if the field differs, and the verdict is `Match` when none is.  If only
   * the round cannot be read, the fields compared before it are still listed.
   */
  method Reconcile(circle: Option<IndexedCircle>, indexedLedger: nat, v: Views,
                   members: seq<IndexedMember>, payouts: seq<IndexedPayout>)
    returns (r: Report)
    ensures r.verdict == NotIndexed <==> circle.None?
    ensures r.verdict == RpcDown <==>
      && circle.Some?
      && (|| v.latest.None? || v.config.RpcUnavailable? || v.status.RpcUnavailable? || v.paused.RpcUnavailable?
          || v.closed.RpcUnavailable? || (Readable(v) && AsksRound(v) && v.round.RpcUnavailable?))
    ensures r.verdict == Incompatible <==> circle.Some? && r.verdict != RpcDown && !Readable(v)
    ensures circle.None? || !Readable(v) ==> r.mismatches == []
    ensures r.lag == if circle.Some? && v.latest.Some? then Some(v.latest.value - indexedLedger) else None
    ensures circle.Some? && Readable(v) && AsksRound(v) && v.round.RpcUnavailable? ==>
      && r.verdict == RpcDown
      && (forall f, k :: Reported(r.mismatches, f, k)
            <==> (f.MemberOrder? || Scalar(f)) && Differs(f, k, circle.value, members, payouts, v))
    ensures circle.Some? && Readable(v) && !(AsksRound(v) && v.round.RpcUnavailable?) ==>
      && (r.verdict == Match || r.verdict == Mismatched)
      && (r.verdict == Match <==> Clean(circle.value, members, payouts, v))
      && (forall f, k :: Reported(r.mismatches, f, k) <==> Differs(f, k, circle.value, members, payouts, v))
      && (forall m :: m in r.mismatches ==>
            (m.classification == PossiblyStale <==> v.latest.value > indexedLedger))
  {
    if circle.None? {
      return Report(NotIndexed, [], None);
    }
    if v.latest.None? {
      return Report(RpcDown, [], None);
    }
    var lag := v.latest.value - indexedLedger;
    var kind := if lag > 0 then PossiblyStale else Drift;
    if RpcFailed(v) {
      return Report(RpcDown, [], Some(lag));
    }
    if !Readable(v) {
      return Report(Incompatible, [], Some(lag));
    }
    var slots := CompareSlots(members, v.config.shape.value.members, kind);
    var scalars := CompareScalars(circle.value, v, kind);
    if AsksRound(v) && v.round.RpcUnavailable? {
      ReportedConcat(slots, scalars);
      return Report(RpcDown, slots + scalars, Some(lag));
    }
    var progress := CompareProgress(circle.value, payouts, v, kind);
    var rows := ComparePayouts(payouts, v, kind);
    var found := slots + scalars + progress + rows;
    AllReported(slots, scalars, progress, rows, circle.value, members, payouts, v);
    if found != [] {
      assert Reported(found, found[0].field, found[0].key);
    }
    return Report(if found == [] then Match else Mismatched, found, Some(lag));
  }

  /** The four groups of checks together cover every field. */
  lemma {:induction false} AllReported(slots: seq<Mismatch>, scalars: seq<Mismatch>, progress: seq<Mismatch>, rows: seq<Mismatch>,
                    circle: IndexedCircle, members: seq<IndexedMember>, payouts: seq<IndexedPayout>, v: Views)
    requires Readable(v)
    requires forall f, k :: Reported(slots, f, k) <==>
      f == MemberOrder && Differs(MemberOrder, k, circle, members, payouts, v)
    requires forall f, k :: Reported(scalars, f, k) <==> Scalar(f) && Differs(f, k, circle, members, payouts, v)
    requires forall f, k :: Reported(progress, f, k) <==> Progress(f) && Differs(f, k, circle, members, payouts, v)
    requires forall f, k :: Reported(rows, f, k) <==> PayoutReported(payouts, v, f, k)
    ensures forall f, k :: Reported(slots + scalars + progress + rows, f, k)
              <==> Differs(f, k, circle, members, payouts, v)
  {
    ReportedConcat(slots, scalars);
    ReportedConcat(slots + scalars, progress);
    ReportedConcat(slots + scalars + progress, rows);
  }

  predicate Progress(f: Field) {
    f.CurrentRound? || f.PayoutCount?
  }

  method CompareProgress(row: IndexedCircle, payouts: seq<IndexedPayout>, v: Views, kind: Classification)
    returns (found: seq<Mismatch>)
    requires Readable(v)
    ensures forall m :: m in found ==> m.classification == kind
    ensures forall f, k :: Reported(found, f, k) <==> Progress(f) && Differs(f, k, row, [], payouts, v)
  {
    found := [];
    if AsksRound(v) && v.round.Answer? && v.round.shape.Some? && row.currentRound != v.round.shape.value {
      ReportedAppend(found, CurrentRound, NO_KEY, kind);
      found := found + [Mismatch(CurrentRound, NO_KEY, kind)];
    }
    var expected := ExpectedPayouts(v);
    if expected.Some? && |payouts| != expected.value {
      ReportedAppend(found, PayoutCount, NO_KEY, kind);
      found := found + [Mismatch(PayoutCount, NO_KEY, kind)];
    }
  }

  lemma {:induction false} ReportedAppend(report: seq<Mismatch>, field: Field, key: int, kind: Classification)
    ensures forall f, k ::
      Reported(report + [Mismatch(field, key, kind)], f, k) <==> Reported(report, f, k) || (f == field && k == key)
  {
    ReportedConcat(report, [Mismatch(field, key, kind)]);
    assert Mismatch(field, key, kind) in [Mismatch(field, key, kind)];
  }

  lemma {:induction false} ReportedConcat(a: seq<Mismatch>, b: seq<Mismatch>)
    ensures forall f, k :: Reported(a + b, f, k) <==> Reported(a, f, k) || Reported(b, f, k)
  {
    forall f, k
      ensures Reported(a + b, f, k) <==> Reported(a, f, k) || Reported(b, f, k)
    {
      if Reported(a, f, k) {
        var m :| m in a && m.field == f && m.key == k;
        assert m in a + b;
      }
      if Reported(b, f, k) {
        var m :| m in b && m.field == f && m.key == k;
        assert m in a + b;
      }
    }
  }

  method BuildSlots(members: seq<IndexedMember>) returns (byOrder: map<int, Address>)
    ensures forall i :: (if i in byOrder then Some(byOrder[i]) else None) == SlotAt(members, i)
  {
    byOrder := map[];
    for n := 0 to |members|
      invariant forall i :: (if i in byOrder then Some(byOrder[i]) else None) == SlotAt(members[..n], i)
    {
      assert members[..n + 1][..n] == members[..n];
      byOrder := byOrder[members[n].payoutOrder := members[n].member];
    }
    assert members[..|members|] == members;
  }

  method CompareSlots(members: seq<IndexedMember>, rotation: seq<Address>, kind: Classification)
    returns (found: seq<Mismatch>)
    ensures forall m :: m in found ==> m.classification == kind
    ensures forall f, k :: Reported(found, f, k) <==>
      && f == MemberOrder && (0 <= k < |rotation| || 0 <= k < |members|)
      && SlotAt(members, k) != RotationAt(rotation, k)
  {
    found := [];
    var slots := if |rotation| < |members| then |members| else |rotation|;
    var byOrder := BuildSlots(members);
    for i := 0 to slots
      invariant forall m :: m in found ==> m.classification == kind
      invariant forall f, k :: Reported(found, f, k) <==>
        f == MemberOrder && 0 <= k < i && SlotAt(members, k) != RotationAt(rotation, k)
    {
      var indexed := if i in byOrder then Some(byOrder[i]) else None;
      if indexed != RotationAt(rotation, i) {
        ReportedAppend(found, MemberOrder, i, kind);
        found := found + [Mismatch(MemberOrder, i, kind)];
      }
    }
  }

  predicate Scalar(f: Field) {
    f.MemberCount? || f.RoundAmount? || f.StatusField? || f.PausedField?
  }

  method CompareScalars(row: IndexedCircle, v: Views, kind: Classification) returns (found: seq<Mismatch>)
    requires Readable(v)
    ensures forall m :: m in found ==> m.classification == kind
    ensures forall f, k :: Reported(found, f, k) <==> Scalar(f) && Differs(f, k, row, [], [], v)
  {
    var config := v.config.shape.value;
    found := [];
    if row.memberCount != |config.members| {
      ReportedAppend(found, MemberCount, NO_KEY, kind);
      found := found + [Mismatch(MemberCount, NO_KEY, kind)];
    }
    if row.roundAmount != Some(config.roundAmount) {
      ReportedAppend(found, RoundAmount, NO_KEY, kind);
      found := found + [Mismatch(RoundAmount, NO_KEY, kind)];
    }
    if !StatusAgrees(row.status, v.status.shape.value, v.closed.shape.value) {
      ReportedAppend(found, StatusField, NO_KEY, kind);
      found := found + [Mismatch(StatusField, NO_KEY, kind)];
    }
    if row.paused.Some? && row.paused.value != v.paused.shape.value {
      ReportedAppend(found, PausedField, NO_KEY, kind);
      found := found + [Mismatch(PausedField, NO_KEY, kind)];
    }
  }

  ghost predicate PayoutReported(payouts: seq<IndexedPayout>, v: Views, f: Field, k: int)
    requires Readable(v)
  {
    exists p :: p in payouts && p.round == k && PayoutWrong(p, f, v)
  }

  method ComparePayouts(payouts: seq<IndexedPayout>, v: Views, kind: Classification)
    returns (found: seq<Mismatch>)
    requires Readable(v)
    ensures forall m :: m in found ==> m.classification == kind
    ensures forall f, k :: Reported(found, f, k) <==> PayoutReported(payouts, v, f, k)
  {
    found := [];
    for n := 0 to |payouts|
      invariant forall m :: m in found ==> m.classification == kind
      invariant forall f, k :: Reported(found, f, k) <==> PayoutReported(payouts[..n], v, f, k)
    {
      var p := payouts[n];
      ghost var before := found;
      if PayoutWrong(p, PayoutRecipient, v) {
        ReportedAppend(found, PayoutRecipient, p.round, kind);
        found := found + [Mismatch(PayoutRecipient, p.round, kind)];
      }
      if PayoutWrong(p, PayoutAmount, v) {
        ReportedAppend(found, PayoutAmount, p.round, kind);
        found := found + [Mismatch(PayoutAmount, p.round, kind)];
      }
      PayoutReportedSnoc(payouts, n, v);
    }
    assert payouts[..|payouts|] == payouts;
  }

  lemma {:induction false} PayoutReportedSnoc(payouts: seq<IndexedPayout>, n: nat, v: Views)
    requires n < |payouts| && Readable(v)
    ensures forall f, k :: PayoutReported(payouts[..n + 1], v, f, k) <==>
      PayoutReported(payouts[..n], v, f, k) || (payouts[n].round == k && PayoutWrong(payouts[n], f, v))
  {
    assert payouts[..n + 1] == payouts[..n] + [payouts[n]];
    forall f, k
      ensures PayoutReported(payouts[..n + 1], v, f, k) <==>
        PayoutReported(payouts[..n], v, f, k) || (payouts[n].round == k && PayoutWrong(payouts[n], f, v))
    {
      if payouts[n].round == k && PayoutWrong(payouts[n], f, v) {
        assert payouts[n] in payouts[..n + 1];
      }
    }
  }
}
