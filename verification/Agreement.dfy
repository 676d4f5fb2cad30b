/** What the diagnostic's verdicts mean, and that a faithful projection always gets `Match`. */
module Agreement {
  import opened Prelude
  import opened Events
  import opened CircleContract
  import opened Projection
  import opened World
  import opened Mirror
  import opened Reconcile

  /** The contract's views of circle `c`, read while the RPC is up. */
  function ViewsOf(c: Circle, latest: nat): Views {
    Views(Some(latest),
          Answer(Some(Config(c.rotation, c.roundAmount))), Answer(Some(c.status)),
          Answer(Some(c.paused)), Answer(Some(c.closed)),
          if c.status.StPending? || c.status.StActive? then Answer(Some(c.roundIndex)) else Read.ContractError)
  }

  function ReadCircle(t: Tables, a: Address): Option<IndexedCircle> {
    if a in t.circles then
      var r := t.circles[a];
      Some(IndexedCircle(r.status, r.currentRound, r.memberCount, Some(r.roundAmount), Some(r.paused)))
    else None
  }

  ghost predicate MemberRowOf(row: IndexedMember, t: Tables, a: Address) {
    MemberKey(a, row.member) in t.members && t.members[MemberKey(a, row.member)].payoutOrder == row.payoutOrder
  }

  /** SELECT ... WHERE circle_address = a LIMIT MAX_ROWS: rows of the table, each once; all of them below the limit. */
  ghost predicate ReadsMembers(rows: seq<IndexedMember>, t: Tables, a: Address) {
    && |rows| <= MAX_ROWS
    && (forall i :: 0 <= i < |rows| ==> MemberRowOf(rows[i], t, a))
    && (forall i, j :: 0 <= i < j < |rows| ==> rows[i].member != rows[j].member)
    && (|rows| < MAX_ROWS ==> forall m :: MemberKey(a, m) in t.members ==> exists i :: 0 <= i < |rows| && rows[i].member == m)
  }

  ghost predicate PayoutRowOf(row: IndexedPayout, t: Tables, a: Address) {
    && 0 <= row.round
    && PayoutKey(a, row.round) in t.payouts
    && var r := t.payouts[PayoutKey(a, row.round)];
       row == IndexedPayout(row.round, r.recipient, Some(r.amount), Some(r.isExceptional), r.ledger)
  }

  ghost predicate ReadsPayouts(rows: seq<IndexedPayout>, t: Tables, a: Address) {
    && |rows| <= MAX_ROWS
    && (forall i :: 0 <= i < |rows| ==> PayoutRowOf(rows[i], t, a))
    && UniqueRounds(rows)
    && (|rows| < MAX_ROWS ==> forall r: nat :: PayoutKey(a, r) in t.payouts ==> HasRound(rows, r))
  }

  ghost predicate UniqueRounds(rows: seq<IndexedPayout>) {
    forall i, j :: 0 <= i < j < |rows| ==> rows[i].round != rows[j].round
  }

  ghost predicate HasSlot(rows: seq<IndexedMember>, k: int) {
    exists i :: 0 <= i < |rows| && rows[i].payoutOrder == k
  }

  ghost predicate HasRound(rows: seq<IndexedPayout>, r: int) {
    exists i :: 0 <= i < |rows| && rows[i].round == r
  }

  /** Exactly one payout row names `m` as its recipient. */
  ghost predicate PaidOnce(rows: seq<IndexedPayout>, m: Address) {
    exists i :: 0 <= i < |rows| && rows[i].recipient == m && OnlyAt(rows, m, i)
  }

  ghost predicate OnlyAt(rows: seq<IndexedPayout>, m: Address, i: int) {
    forall j :: 0 <= j < |rows| && rows[j].recipient == m ==> j == i
  }

  function RoundsIn(rows: seq<IndexedPayout>): seq<int> {
    seq(|rows|, i requires 0 <= i < |rows| => rows[i].round)
  }

  lemma {:induction false} SlotAtUnique(rows: seq<IndexedMember>, i: nat)
    requires i < |rows|
    requires forall x, y :: 0 <= x < y < |rows| ==> rows[x].payoutOrder != rows[y].payoutOrder
    ensures SlotAt(rows, rows[i].payoutOrder) == Some(rows[i].member)
  {
    if i < |rows| - 1 {
      SlotAtUnique(rows[..|rows| - 1], i);
    }
  }

  lemma {:induction false} SlotAtFound(rows: seq<IndexedMember>, k: int)
    requires SlotAt(rows, k).Some?
    ensures exists i :: 0 <= i < |rows| && rows[i].payoutOrder == k && Some(rows[i].member) == SlotAt(rows, k)
  {
    if rows[|rows| - 1].payoutOrder != k {
      SlotAtFound(rows[..|rows| - 1], k);
      var i :| 0 <= i < |rows[..|rows| - 1]| && rows[..|rows| - 1][i].payoutOrder == k
               && Some(rows[..|rows| - 1][i].member) == SlotAt(rows[..|rows| - 1], k);
      assert rows[i].payoutOrder == k;
    }
  }

  /** The rows of a mirrored circle number as many as its rotation, each in its own slot. */
  lemma {:induction false} MemberRowsOfMirror(c: Circle, a: Address, t: Tables, rows: seq<IndexedMember>)
    requires 2 <= |c.rotation| <= MAX_MEMBERS && Distinct(c.rotation)
    requires MembersMirror(c, a, t.members) && ReadsMembers(rows, t, a)
    ensures |rows| == |c.rotation|
    ensures forall k :: 0 <= k < |c.rotation| ==> HasSlot(rows, k)
  {
    var orders := seq(|rows|, i requires 0 <= i < |rows| => rows[i].payoutOrder);
    DistinctCardinality(orders);
    assert Elements(orders) <= Below(|c.rotation|);
    SubsetCardinality(Elements(orders), Below(|c.rotation|));
    forall k | 0 <= k < |c.rotation| ensures k in Elements(orders) && HasSlot(rows, k) {
      assert MemberKey(a, c.rotation[k]) in t.members;
      var i :| 0 <= i < |rows| && rows[i].member == c.rotation[k];
      assert c.rotation[rows[i].payoutOrder] == c.rotation[k];
      assert orders[i] == k;
    }
    SubsetCardinality(Below(|c.rotation|), Elements(orders));
  }

  lemma {:induction false} PayoutRowsOfMirror(c: Circle, a: Address, t: Tables, rows: seq<IndexedPayout>)
    requires WellFormed(c) && Mirrors(c, a, t) && ReadsPayouts(rows, t, a)
    ensures |rows| == PaidRounds(c)
  {
    var rounds := RoundsIn(rows);
    DistinctCardinality(rounds);
    forall i | 0 <= i < |rows| ensures rounds[i] in Below(PaidRounds(c)) {
      assert PayoutRowOf(rows[i], t, a);
    }
    SubsetCardinality(Elements(rounds), Below(PaidRounds(c)));
    forall r | r in Below(PaidRounds(c)) ensures r in Elements(rounds) {
      assert PayoutKey(a, r) in t.payouts;
      var i :| 0 <= i < |rows| && rows[i].round == r;
      assert rounds[i] == r;
    }
    SubsetCardinality(Below(PaidRounds(c)), Elements(rounds));
  }

  /** Rows that mirror the contract leave the diagnostic nothing to report. */
  lemma {:induction false} MirroredIsClean(c: Circle, a: Address, t: Tables, latest: nat,
                        members: seq<IndexedMember>, payouts: seq<IndexedPayout>)
    requires WellFormed(c) && Mirrors(c, a, t)
    requires ReadsMembers(members, t, a) && ReadsPayouts(payouts, t, a)
    ensures ReadCircle(t, a).Some?
    ensures Clean(ReadCircle(t, a).value, members, payouts, ViewsOf(c, latest))
  {
    SlotsFilled(c, a, t, members);
    PayoutRowsOfMirror(c, a, t, payouts);
    forall i | 0 <= i < |payouts| ensures PayoutExact(payouts[i], c) {
      assert PayoutRowOf(payouts[i], t, a);
    }
    CleanExactly(ReadCircle(t, a).value, members, payouts, c, latest);
  }

  /** The circle's row holds what the contract says; the round only while it can be asked for. */
  ghost predicate RowExact(row: IndexedCircle, c: Circle) {
    && row.status == StatusOf(c)
    && row.memberCount == |c.rotation| && row.roundAmount == Some(c.roundAmount)
    && (row.paused.Some? ==> row.paused.value == c.paused)
    && (c.status.StPending? || c.status.StActive? ==> row.currentRound == c.roundIndex)
  }

  /** As many payout rows as rounds were paid, each to its round's recipient and, unless exceptional, for the pot. */
  ghost predicate PayoutRowsExact(payouts: seq<IndexedPayout>, c: Circle) {
    |payouts| == PaidRounds(c) && forall i :: 0 <= i < |payouts| ==> PayoutExact(payouts[i], c)
  }

  ghost predicate PayoutExact(p: IndexedPayout, c: Circle) {
    && 0 <= p.round < |c.rotation| && p.recipient == c.rotation[p.round]
    && (p.exceptional == Some(true) || p.amount == Some(c.roundAmount * |c.rotation|))
  }

  /**
   * What a clean comparison establishes about any rows, exactly: the circle's row and the payout rows are the
   * contract's, and each slot's last member row names the rotation's member.
   */
  lemma {:induction false} CleanExactly(row: IndexedCircle, members: seq<IndexedMember>, payouts: seq<IndexedPayout>,
                                        c: Circle, latest: nat)
    requires WellFormed(c)
    ensures Clean(row, members, payouts, ViewsOf(c, latest))
       <==> RowExact(row, c) && NoOrderMismatch(members, c.rotation) && PayoutRowsExact(payouts, c)
  {
    var v := ViewsOf(c, latest);
    forall f, k ensures Differs(f, k, row, members, payouts, v) ==>
      !(RowExact(row, c) && NoOrderMismatch(members, c.rotation) && PayoutRowsExact(payouts, c))
    {
      if (f.PayoutRecipient? || f.PayoutAmount?) && Differs(f, k, row, members, payouts, v) {
        WrongPayout(payouts, c, latest, f, k);
      }
    }
    if Clean(row, members, payouts, v) {
      CleanRow(row, members, payouts, c, latest);
      CleanSlots(row, members, payouts, c, latest);
      CleanPayouts(row, members, payouts, c, latest);
    }
  }

  lemma {:induction false} WrongPayout(payouts: seq<IndexedPayout>, c: Circle, latest: nat, f: Field, k: int)
    requires PayoutReported(payouts, ViewsOf(c, latest), f, k)
    ensures !PayoutRowsExact(payouts, c)
  {
    var p :| p in payouts && p.round == k && PayoutWrong(p, f, ViewsOf(c, latest));
    var i :| 0 <= i < |payouts| && payouts[i] == p;
    assert !PayoutExact(payouts[i], c);
  }

  lemma {:induction false} CleanRow(row: IndexedCircle, members: seq<IndexedMember>, payouts: seq<IndexedPayout>,
                                    c: Circle, latest: nat)
    requires WellFormed(c) && Clean(row, members, payouts, ViewsOf(c, latest))
    ensures RowExact(row, c) && |payouts| == PaidRounds(c)
  {
    var v := ViewsOf(c, latest);
    assert !Differs(StatusField, NO_KEY, row, members, payouts, v);
    assert !Differs(MemberCount, NO_KEY, row, members, payouts, v);
    assert !Differs(RoundAmount, NO_KEY, row, members, payouts, v);
    assert !Differs(PausedField, NO_KEY, row, members, payouts, v);
    assert !Differs(CurrentRound, NO_KEY, row, members, payouts, v);
    assert !Differs(PayoutCount, NO_KEY, row, members, payouts, v);
  }

  lemma {:induction false} CleanSlots(row: IndexedCircle, members: seq<IndexedMember>, payouts: seq<IndexedPayout>,
                                      c: Circle, latest: nat)
    requires Clean(row, members, payouts, ViewsOf(c, latest))
    ensures NoOrderMismatch(members, c.rotation)
  {
    forall k | 0 <= k < |c.rotation| || 0 <= k < |members| ensures SlotAt(members, k) == RotationAt(c.rotation, k) {
      assert !Differs(MemberOrder, k, row, members, payouts, ViewsOf(c, latest));
    }
  }

  lemma {:induction false} CleanPayouts(row: IndexedCircle, members: seq<IndexedMember>, payouts: seq<IndexedPayout>,
                                        c: Circle, latest: nat)
    requires Clean(row, members, payouts, ViewsOf(c, latest))
    ensures forall i :: 0 <= i < |payouts| ==> PayoutExact(payouts[i], c)
  {
    var v := ViewsOf(c, latest);
    forall i | 0 <= i < |payouts| ensures PayoutExact(payouts[i], c) {
      assert payouts[i] in payouts;
      assert !Differs(PayoutRecipient, payouts[i].round, row, members, payouts, v);
      assert !Differs(PayoutAmount, payouts[i].round, row, members, payouts, v);
    }
  }

  /** A slot holds the member of the last row with its order. */
  lemma {:induction false} SlotAtLast(rows: seq<IndexedMember>, k: int, m: Address)
    ensures SlotAt(rows, k) == Some(m) <==> LastIn(rows, k, m)
  {
    if rows != [] {
      var n := |rows| - 1;
      SlotAtLast(rows[..n], k, m);
      if LastIn(rows[..n], k, m) && rows[n].payoutOrder != k {
        var i :| 0 <= i < n && rows[..n][i] == IndexedMember(m, k) && NoneAfter(rows[..n], i, k);
        assert rows[i] == IndexedMember(m, k) && NoneAfter(rows, i, k);
      }
      if LastIn(rows, k, m) && rows[n].payoutOrder != k {
        var i :| 0 <= i < |rows| && rows[i] == IndexedMember(m, k) && NoneAfter(rows, i, k);
        assert rows[..n][i] == IndexedMember(m, k) && NoneAfter(rows[..n], i, k);
      }
      assert NoneAfter(rows, n, k);
    }
  }

  ghost predicate LastIn(rows: seq<IndexedMember>, k: int, m: Address) {
    exists i :: 0 <= i < |rows| && rows[i] == IndexedMember(m, k) && NoneAfter(rows, i, k)
  }

  ghost predicate NoneAfter(rows: seq<IndexedMember>, i: int, k: int)
    requires 0 <= i < |rows|
  {
    forall j :: i < j < |rows| ==> rows[j].payoutOrder != k
  }

  lemma {:induction false} SlotsFilled(c: Circle, a: Address, t: Tables, members: seq<IndexedMember>)
    requires 2 <= |c.rotation| <= MAX_MEMBERS && Distinct(c.rotation)
    requires MembersMirror(c, a, t.members) && ReadsMembers(members, t, a)
    ensures |members| == |c.rotation|
    ensures forall k :: 0 <= k < |c.rotation| ==> SlotAt(members, k) == Some(c.rotation[k])
  {
    MemberRowsOfMirror(c, a, t, members);
    forall k | 0 <= k < |c.rotation| ensures SlotAt(members, k) == Some(c.rotation[k]) {
      assert HasSlot(members, k);
      var i :| 0 <= i < |members| && members[i].payoutOrder == k;
      SlotAtUnique(members, i);
    }
  }

  /**
   * Projection refines the contract, as the operator sees it: after any transaction history, and for
   * every circle, comparing the replayed rows with the contract's views reports nothing.
   */
  lemma {:induction false} HistoryIsClean(h: seq<Submitted>, a: Address, latest: nat,
                       members: seq<IndexedMember>, payouts: seq<IndexedPayout>)
    requires a in Run(h).circles
    requires Replay(EMPTY_TABLES, Run(h).events).Done? ==>
      var t := Replay(EMPTY_TABLES, Run(h).events).value; ReadsMembers(members, t, a) && ReadsPayouts(payouts, t, a)
    ensures Replay(EMPTY_TABLES, Run(h).events).Done?
    ensures var t := Replay(EMPTY_TABLES, Run(h).events).value;
            && ReadCircle(t, a).Some?
            && Clean(ReadCircle(t, a).value, members, payouts, ViewsOf(Run(h).circles[a], latest))
  {
    HistoryReflected(h);
    MirroredIsClean(Run(h).circles[a], a, Replay(EMPTY_TABLES, Run(h).events).value, latest, members, payouts);
  }

  /** Pigeonhole: n payout rows with distinct rounds below n cover every round. */
  lemma {:induction false} RoundsCovered(payouts: seq<IndexedPayout>, n: nat)
    requires UniqueRounds(payouts) && |payouts| == n
    requires forall i :: 0 <= i < |payouts| ==> payouts[i].round in Below(n)
    ensures forall r :: 0 <= r < n ==> HasRound(payouts, r)
  {
    var rounds := RoundsIn(payouts);
    DistinctCardinality(rounds);
    assert Elements(rounds) <= Below(n);
    SubsetCardinality(Elements(rounds), Below(n));
    forall r | 0 <= r < n ensures HasRound(payouts, r) {
      assert r in Elements(rounds);
      var i :| 0 <= i < |rounds| && rounds[i] == r;
      assert payouts[i].round == r;
    }
  }

  /**
   * A clean comparison of a Completed circle is a full settlement: the payout rows are one per round,
   * each to the rotation's recipient and, unless exceptional, for the full pot; so with distinct
   * members everybody is paid exactly once.
   */
  lemma {:induction false} CleanCompletedIsFullSettlement(circle: IndexedCircle, members: seq<IndexedMember>,
                                       payouts: seq<IndexedPayout>, v: Views)
    requires Readable(v) && v.status.shape.value.StCompleted?
    requires Clean(circle, members, payouts, v)
    requires UniqueRounds(payouts)
    ensures var config := v.config.shape.value;
            && |payouts| == |config.members|
            && (forall r :: 0 <= r < |config.members| ==> HasRound(payouts, r))
            && (forall i :: 0 <= i < |payouts| ==>
                  && 0 <= payouts[i].round < |config.members|
                  && payouts[i].recipient == config.members[payouts[i].round]
                  && (payouts[i].exceptional != Some(true) ==>
                        payouts[i].amount == Some(config.roundAmount * |config.members|)))
            && (Distinct(config.members) ==>
                  forall m :: m in config.members ==> PaidOnce(payouts, m))
  {
    var config, n := v.config.shape.value, |v.config.shape.value.members|;
    assert !Differs(PayoutCount, NO_KEY, circle, members, payouts, v);
    forall i | 0 <= i < |payouts|
      ensures !PayoutWrong(payouts[i], PayoutRecipient, v) && !PayoutWrong(payouts[i], PayoutAmount, v)
      ensures payouts[i].round in Below(n)
    {
      assert payouts[i] in payouts;
      assert !Differs(PayoutRecipient, payouts[i].round, circle, members, payouts, v);
      assert !Differs(PayoutAmount, payouts[i].round, circle, members, payouts, v);
    }
    RoundsCovered(payouts, n);
    if Distinct(config.members) {
      forall m | m in config.members ensures PaidOnce(payouts, m) {
        var r :| 0 <= r < n && config.members[r] == m;
        assert HasRound(payouts, r);
        var i :| 0 <= i < |payouts| && payouts[i].round == r;
        assert OnlyAt(payouts, m, i);
      }
    }
  }

  /** The member rows are exactly the rotation: slot i holds rotation[i], and there are no other rows. */
  ghost predicate MemberRowsExact(members: seq<IndexedMember>, rotation: seq<Address>) {
    && |members| == |rotation|
    && OrdersProper(members)
    && forall i :: 0 <= i < |members| ==> rotation[members[i].payoutOrder] == members[i].member
  }

  /** Payout orders are pairwise distinct slot numbers below the number of rows. */
  ghost predicate OrdersProper(members: seq<IndexedMember>) {
    && (forall i :: 0 <= i < |members| ==> 0 <= members[i].payoutOrder < |members|)
    && (forall i, j :: 0 <= i < j < |members| ==> members[i].payoutOrder != members[j].payoutOrder)
  }

  ghost predicate NoOrderMismatch(members: seq<IndexedMember>, rotation: seq<Address>) {
    forall k :: (0 <= k < |rotation| || 0 <= k < |members|) ==> SlotAt(members, k) == RotationAt(rotation, k)
  }

  /**
   * The slot comparison alone does not establish that the member rows are the rotation: it overlooks
   * surplus rows whose order is out of range or repeated.  It does exactly when the orders are proper.
   */
  lemma {:induction false} OrderCheckExactness(members: seq<IndexedMember>, rotation: seq<Address>)
    ensures MemberRowsExact(members, rotation) <==> NoOrderMismatch(members, rotation) && OrdersProper(members)
  {
    if MemberRowsExact(members, rotation) {
      forall k | 0 <= k < |rotation| ensures SlotAt(members, k) == Some(rotation[k]) {
        OrdersCover(members, k);
        assert HasSlot(members, k);
        var i :| 0 <= i < |members| && members[i].payoutOrder == k;
        SlotAtUnique(members, i);
      }
    }
    if NoOrderMismatch(members, rotation) && OrdersProper(members) {
      forall i | 0 <= i < |members|
        ensures members[i].payoutOrder < |rotation| && rotation[members[i].payoutOrder] == members[i].member
      {
        SlotAtUnique(members, i);
      }
      if |members| < |rotation| {
        SlotAtFound(members, |members|);
        assert false;
      } else if |rotation| < |members| {
        OrdersCover(members, |rotation|);
        assert false;
      }
    }
  }

  /** Pigeonhole: n distinct orders below n take every value below n. */
  lemma {:induction false} OrdersCover(members: seq<IndexedMember>, k: nat)
    requires OrdersProper(members) && k < |members|
    ensures HasSlot(members, k)
  {
    var orders := seq(|members|, i requires 0 <= i < |members| => members[i].payoutOrder);
    DistinctCardinality(orders);
    assert Elements(orders) <= Below(|members|);
    SubsetCardinality(Elements(orders), Below(|members|));
    assert k in Elements(orders);
    var i :| 0 <= i < |orders| && orders[i] == k;
    assert members[i].payoutOrder == k;
  }

  /** A surplus member row that the slot comparison accepts. */
  lemma {:induction false} SurplusRowOverlooked(x: Address, y: Address, z: Address)
    ensures var rows := [IndexedMember(x, 0), IndexedMember(y, 1), IndexedMember(z, 7)];
            NoOrderMismatch(rows, [x, y]) && !MemberRowsExact(rows, [x, y])
  {
    var rows := [IndexedMember(x, 0), IndexedMember(y, 1), IndexedMember(z, 7)];
    assert rows[..2] == [IndexedMember(x, 0), IndexedMember(y, 1)];
    assert rows[..2][..1] == [IndexedMember(x, 0)];
    assert rows[..2][..1][..0] == [];
    forall k | 0 <= k < 3 ensures SlotAt(rows, k) == RotationAt([x, y], k) {
      assert SlotAt(rows, k) == SlotAt(rows[..2], k);
      assert SlotAt(rows[..2], k) == if k == 1 then Some(y) else SlotAt(rows[..2][..1], k);
      assert SlotAt(rows[..2][..1], k) == if k == 0 then Some(x) else SlotAt([], k);
    }
  }
}
