/**
 * The two halves together: an indexer that survives any crashes while ingesting the events of a legal
 * transaction history keeps rows that agree with the contracts as of its cursor.
 */
module EndToEnd {
  import opened Prelude
  import opened Events
  import opened CircleContract
  import opened Projection
  import opened World
  import opened Mirror
  import opened Reconcile
  import opened Agreement
  import Ingest
  import Books
  import Durability

  const HANDLER: Ingest.Handler<Tables> := (t, e) => Handle(t, e)

  /** Events the registry marks as ignored are dropped before ingestion. */
  function Routed(events: seq<Event>): seq<Event> {
    if events == [] then []
    else
      var last := events[|events| - 1];
      Routed(events[..|events| - 1]) + if RouteOf(last).Ignore? then [] else [last]
  }

  lemma {:induction false} RoutedAppend(a: seq<Event>, b: seq<Event>)
    ensures Routed(a + b) == Routed(a) + Routed(b)
  {
    if b == [] {
      assert a + b == a;
    } else {
      assert (a + b)[..|a + b| - 1] == a + b[..|b| - 1];
      RoutedAppend(a, b[..|b| - 1]);
    }
  }

  lemma {:induction false} RoutedFrom(events: seq<Event>)
    ensures forall e :: e in Routed(events) <==> e in events && !RouteOf(e).Ignore?
  {
    if events != [] {
      RoutedFrom(events[..|events| - 1]);
      assert events == events[..|events| - 1] + [events[|events| - 1]];
    }
  }

  /** Where every handler succeeds, replaying and folding the routed events agree. */
  lemma {:induction false} ReplayIsFold(t: Tables, events: seq<Event>)
    requires Replay(t, events).Done?
    ensures Replay(t, events).value == Durability.FoldRows(HANDLER, t, Routed(events))
  {
    if events != [] {
      var init, last := events[..|events| - 1], events[|events| - 1];
      assert events == init + [last];
      ReplayAppend(t, init, [last]);
      ReplayOne(Replay(t, init).value, last);
      ReplayIsFold(t, init);
      if RouteOf(last).Ignore? {
        assert Routed(events) == Routed(init);
      } else {
        assert Routed(events)[..|Routed(events)| - 1] == Routed(init);
      }
    }
  }

  // ----- Shape of the event chain of a history -----

  /** Positions number the events, and every event carries the ledger and hash of a submitted transaction. */
  ghost predicate Numbered(events: seq<Event>, h: seq<Submitted>) {
    && (forall i :: 0 <= i < |events| ==> events[i].pos == i)
    && (forall i :: 0 <= i < |events| ==> FromTx(events[i], h))
  }

  ghost predicate FromTx(e: Event, h: seq<Submitted>) {
    exists m :: 0 <= m < |h| && h[m].txHash == e.txHash && h[m].ledger == e.ledger
  }

  lemma {:induction false} RunNumbered(h: seq<Submitted>)
    ensures Numbered(Run(h).events, h)
  {
    if h != [] {
      var init, last := h[..|h| - 1], h[|h| - 1];
      RunNumbered(init);
      forall e | FromTx(e, init) ensures FromTx(e, h) {
        var m :| 0 <= m < |init| && init[m].txHash == e.txHash && init[m].ledger == e.ledger;
        assert h[m] == init[m];
      }
      forall e: Event | e.txHash == last.txHash && e.ledger == last.ledger ensures FromTx(e, h) {
        assert h[|h| - 1] == last;
      }
    }
  }

  lemma {:induction false} RunOrdered(h: seq<Submitted>)
    requires World.Ordered(h)
    ensures Ingest.Ordered(Run(h).events)
  {
    if h != [] {
      var n := |h| - 1;
      var before, after := Run(h[..n]).events, Run(h).events;
      RunOrdered(h[..n]);
      RunNumbered(h[..n]);
      forall i | 0 <= i < |before| ensures before[i].ledger <= h[n].ledger {
      }
    }
  }

  lemma {:induction false} PenaltiesDistinct(c: Circle, a: Address, i: nat)
    requires i <= |c.rotation| && Distinct(c.rotation)
    ensures Distinct(PenaliseFrom(c, a, i).events)
    ensures forall p :: p in PenaliseFrom(c, a, i).events ==> p.Defaulted? && p.member in c.rotation[i..]
    decreases |c.rotation| - i
  {
    if i < |c.rotation| {
      assert c.rotation[i..] == [c.rotation[i]] + c.rotation[i + 1..];
      if Penalisable(c, c.rotation[i]) {
        PenaltiesDistinct(Penalise(c, a, c.rotation[i]).circle, a, i + 1);
        assert c.rotation[i] !in c.rotation[i + 1..];
      } else {
        PenaltiesDistinct(c, a, i + 1);
      }
    }
  }

  lemma {:induction false} DistinctJoin(p: seq<Payload>, q: seq<Payload>)
    requires Distinct(p) && Distinct(q) && forall x, y :: x in p && y in q ==> x != y
    ensures Distinct(p + q)
  {
    forall i, j | 0 <= i < j < |p + q| ensures (p + q)[i] != (p + q)[j] {
      if i < |p| <= j {
        assert p[i] in p && q[j - |p|] in q;
      }
    }
  }

  /** The settlement's own event, score, payout and advance are of different kinds. */
  lemma {:induction false} SettleTailDistinct(c: Circle, a: Address, score: nat, now: nat)
    requires WellFormed(c) && c.status.StActive?
    ensures var tail := [SettledEvent(c, a)] + SettleTailEvents(c, a, score, now);
            && Distinct(tail) && forall p :: p in tail ==> !p.Defaulted? && !p.CollateralReleased?
  {
    PenaliseKeeps(c, a, 0);
    FourKinds([SettledEvent(c, a)] + SettleTailEvents(c, a, score, now));
  }

  lemma {:induction false} FourKinds(p: seq<Payload>)
    requires |p| == 4 && p[0].ExceptionalSettlement? && p[1].ScoreUpdated? && p[2].PaidOut?
    requires p[3].Completed? || p[3].RoundStarted?
    ensures Distinct(p) && forall x :: x in p ==> !x.Defaulted? && !x.CollateralReleased?
  {
    forall i, j | 0 <= i < j < |p| ensures p[i] != p[j] {
      if i == 0 {
        assert j == 1 || j == 2 || j == 3;
      }
    }
  }

  lemma {:induction false} SettlePayloadsDistinct(c: Circle, a: Address, score: nat, now: nat)
    requires WellFormed(c) && Exec(c, a, SettleRound(score), now).Some?
    ensures Distinct(Exec(c, a, SettleRound(score), now).value.events)
    ensures forall p :: p in Exec(c, a, SettleRound(score), now).value.events ==> !p.CollateralReleased?
  {
    SettleEvents(c, a, score, now);
    PenaltiesDistinct(c, a, 0);
    SettleTailDistinct(c, a, score, now);
    var flags, tail := PenaliseFrom(c, a, 0).events, [SettledEvent(c, a)] + SettleTailEvents(c, a, score, now);
    Grouped(flags, [SettledEvent(c, a)], SettleTailEvents(c, a, score, now));
    DistinctJoin(flags, tail);
  }

  /** No payload repeats but releases of the circle's own collateral, which are not projected. */
  ghost predicate OnlyReleasesRepeat(p: seq<Payload>, a: Address) {
    && (forall i, j :: 0 <= i < j < |p| && p[i] == p[j] ==> p[i].CollateralReleased?)
    && (forall i :: 0 <= i < |p| && p[i].CollateralReleased? ==> p[i].circle == a)
  }

  /** One transaction never publishes the same projected payload twice. */
  lemma {:induction false} PayloadsDistinct(w: Circles, s: Submitted)
    requires AllWellFormed(w) && Execute(w, s).Some?
    ensures OnlyReleasesRepeat(Execute(w, s).value.events, s.tx.addr)
  {
    if s.tx.Call? {
      var c, a := w[s.tx.addr], s.tx.addr;
      match s.tx.op
      case SettleRound(score) => SettlePayloadsDistinct(c, a, score, s.ledger);
      case Close(closer) => ClosePayloads(c, a, closer, s.ledger);
      case Payout(score) => PayoutPayloads(c, a, score, s.ledger);
      case _ => OtherPayloads(c, a, s.tx.op, s.ledger);
    } else {
      assert |Execute(w, s).value.events| == 2;
    }
  }

  lemma {:induction false} ClosePayloads(c: Circle, a: Address, closer: Address, now: nat)
    requires WellFormed(c) && Exec(c, a, Close(closer), now).Some?
    ensures OnlyReleasesRepeat(Exec(c, a, Close(closer), now).value.events, a)
  {
    ReleaseEvents(c, a, 0);
  }

  lemma {:induction false} PayoutPayloads(c: Circle, a: Address, score: nat, now: nat)
    requires WellFormed(c) && Exec(c, a, Payout(score), now).Some?
    ensures OnlyReleasesRepeat(Exec(c, a, Payout(score), now).value.events, a)
  {
    assert |Exec(c, a, Payout(score), now).value.events| == 3;
  }

  /** The other entry points publish one event, or two of different kinds. */
  lemma {:induction false} OtherPayloads(c: Circle, a: Address, op: Op, now: nat)
    requires WellFormed(c) && Exec(c, a, op, now).Some? && !(op.SettleRound? || op.Close? || op.Payout?)
    ensures OnlyReleasesRepeat(Exec(c, a, op, now).value.events, a)
  {
  }

  lemma {:induction false} CrossNoClash(h: seq<Submitted>, a: seq<Event>, b: seq<Event>)
    requires h != [] && World.Ordered(h)
    requires forall e :: e in a ==> FromTx(e, h[..|h| - 1])
    requires forall e :: e in b ==> e.txHash == h[|h| - 1].txHash
    requires Durability.NoClash(a) && Durability.NoClash(b)
    ensures Durability.NoClash(a + b)
  {
    forall i, j | 0 <= i < |a| && 0 <= j < |b|
      ensures !Ingest.Clashes(Ingest.IdentityOf(a[i]), Ingest.IdentityOf(b[j]))
    {
      assert a[i] in a && b[j] in b;
    }
  }

  /** Every routed event of a history carries the hash of one of its transactions. */
  lemma {:induction false} RoutedFromTx(h: seq<Submitted>)
    ensures forall e :: e in Routed(Run(h).events) ==> FromTx(e, h)
  {
    RunNumbered(h);
    RoutedFrom(Run(h).events);
  }

  lemma {:induction false} RoutedStamped(p: seq<Payload>, s: Submitted, base: nat)
    ensures forall e :: e in Routed(Stamp(p, s, base)) ==> e.txHash == s.txHash
  {
    RoutedFrom(Stamp(p, s, base));
  }

  /** The events one more transaction adds clash neither with each other nor with earlier ones. */
  lemma {:induction false} StepNoClash(h: seq<Submitted>)
    requires World.Ordered(h) && h != [] && Durability.NoClash(Routed(Run(h[..|h| - 1]).events))
    requires Execute(Run(h[..|h| - 1]).circles, h[|h| - 1]).Some?
    ensures Durability.NoClash(Routed(Run(h).events))
  {
    var n := |h| - 1;
    var before, last := Run(h[..n]), h[n];
    var p := Execute(before.circles, last).value.events;
    var added := Stamp(p, last, |before.events|);
    PayloadsDistinct(before.circles, last);
    AddedNoClash(p, last, |before.events|);
    RoutedFromTx(h[..n]);
    RoutedStamped(p, last, |before.events|);
    CrossNoClash(h, Routed(before.events), Routed(added));
    RoutedAppend(before.events, added);
  }

  /** No two ingested events of a history share a dedup key or a ledger position. */
  lemma {:induction false} RunNoClash(h: seq<Submitted>)
    requires World.Ordered(h)
    ensures Durability.NoClash(Routed(Run(h).events))
  {
    if h != [] {
      RunNoClash(h[..|h| - 1]);
      if Execute(Run(h[..|h| - 1]).circles, h[|h| - 1]).Some? {
        StepNoClash(h);
      }
    }
  }

  /** Routed events keep their own ids. */
  lemma {:induction false} RunDistinctIds(h: seq<Submitted>)
    ensures Durability.DistinctIds(Routed(Run(h).events))
  {
    RunNumbered(h);
    RoutedIncreasing(Run(h).events);
  }

  /** Dropping ignored events keeps the numbering increasing. */
  lemma {:induction false} RoutedIncreasing(events: seq<Event>)
    requires forall i :: 0 <= i < |events| ==> events[i].pos == i
    ensures forall i, j :: 0 <= i < j < |Routed(events)| ==> Routed(events)[i].pos < Routed(events)[j].pos
    ensures forall i :: 0 <= i < |Routed(events)| ==> Routed(events)[i].pos < |events|
  {
    if events != [] {
      RoutedIncreasing(events[..|events| - 1]);
    }
  }

  lemma {:induction false} AddedNoClash(p: seq<Payload>, s: Submitted, base: nat)
    requires OnlyReleasesRepeat(p, s.tx.addr)
    ensures Durability.NoClash(Routed(Stamp(p, s, base)))
    decreases |p|
  {
    var events := Stamp(p, s, base);
    if p != [] {
      var n := |p| - 1;
      assert OnlyReleasesRepeat(p[..n], s.tx.addr);
      AddedNoClash(p[..n], s, base);
      var init := Stamp(p[..n], s, base);
      assert events[..n] == init;
      if !RouteOf(events[n]).Ignore? {
        forall i | 0 <= i < |Routed(init)|
          ensures !Ingest.Clashes(Ingest.IdentityOf(Routed(init)[i]), Ingest.IdentityOf(events[n]))
        {
          LastNoClash(p, s, base, Routed(init)[i]);
        }
      }
    }
  }

  /** The last routed event of a transaction differs from each earlier one in payload and in index. */
  lemma {:induction false} LastNoClash(p: seq<Payload>, s: Submitted, base: nat, e: Event)
    requires p != [] && e in Routed(Stamp(p[..|p| - 1], s, base))
    requires OnlyReleasesRepeat(p, s.tx.addr)
    ensures !Ingest.Clashes(Ingest.IdentityOf(e), Ingest.IdentityOf(Stamp(p, s, base)[|p| - 1]))
  {
    var n := |p| - 1;
    var init := Stamp(p[..n], s, base);
    RoutedHas(init, e);
    var k :| 0 <= k < n && init[k] == e;
    assert p[..n][k] == p[k];
    PayloadsDiffer(p, s, k, e);
  }

  lemma {:induction false} PayloadsDiffer(p: seq<Payload>, s: Submitted, k: nat, e: Event)
    requires k < |p| - 1 && e.payload == p[k] && e.contractId == Publisher(p[k], s.tx.addr) && !RouteOf(e).Ignore?
    requires OnlyReleasesRepeat(p, s.tx.addr)
    ensures p[k] != p[|p| - 1]
  {
  }

  lemma {:induction false} RoutedHas(events: seq<Event>, e: Event)
    requires e in Routed(events)
    ensures e in events && !RouteOf(e).Ignore?
  {
    RoutedFrom(events);
  }

  // ----- The history as of a ledger -----

  /** The transactions in ledgers up to `n`. */
  function AsOf(h: seq<Submitted>, n: nat): seq<Submitted> {
    if h == [] || h[|h| - 1].ledger <= n then h else AsOf(h[..|h| - 1], n)
  }

  lemma {:induction false} AllUpTo(h: seq<Submitted>, n: nat)
    requires World.Ordered(h) && (h == [] || h[|h| - 1].ledger <= n)
    ensures Ingest.Cut(Routed(Run(h).events), n) == |Routed(Run(h).events)|
  {
    var routed := Routed(Run(h).events);
    RoutedFromTx(h);
    if routed != [] {
      assert routed[|routed| - 1] in routed;
      assert FromTx(routed[|routed| - 1], h);
    }
  }

  /** The events of the last transaction follow the earlier ones and carry its ledger. */
  lemma {:induction false} LastAdds(h: seq<Submitted>) returns (added: seq<Event>)
    requires h != []
    ensures Run(h).events == Run(h[..|h| - 1]).events + added
    ensures forall e :: e in added ==> e.ledger == h[|h| - 1].ledger
  {
    var c, s := Run(h[..|h| - 1]), h[|h| - 1];
    match Execute(c.circles, s)
    case None => added := [];
    case Some(effect) => added := Stamp(effect.events, s, |c.events|);
  }

  /** The first events of a history, up to a ledger, are the events of its transactions up to that ledger. */
  lemma {:induction false} EventsAsOf(h: seq<Submitted>, n: nat)
    requires World.Ordered(h)
    ensures World.Ordered(AsOf(h, n))
    ensures Routed(Run(h).events)[..Ingest.Cut(Routed(Run(h).events), n)] == Routed(Run(AsOf(h, n)).events)
  {
    if h == [] || h[|h| - 1].ledger <= n {
      AllUpTo(h, n);
    } else {
      EventsAsOf(h[..|h| - 1], n);
      var added := LastAdds(h);
      RoutedAppend(Run(h[..|h| - 1]).events, added);
      RoutedFrom(added);
      CutAbove(Routed(Run(h[..|h| - 1]).events), Routed(added), n);
    }
  }

  lemma {:induction false} CutAbove(a: seq<Event>, b: seq<Event>, n: nat)
    requires forall e :: e in b ==> e.ledger > n
    ensures (a + b)[..Ingest.Cut(a + b, n)] == a[..Ingest.Cut(a, n)]
  {
    if b == [] {
      assert a + b == a;
    } else {
      assert (a + b)[..|a + b| - 1] == a + b[..|b| - 1];
      CutAbove(a, b[..|b| - 1], n);
      assert b[|b| - 1] in b;
    }
  }

  lemma {:induction false} RoutedOrdered(events: seq<Event>)
    requires Ingest.Ordered(events)
    ensures Ingest.Ordered(Routed(events))
  {
    if events != [] {
      var init, last := events[..|events| - 1], events[|events| - 1];
      RoutedOrdered(init);
      RoutedFrom(init);
      forall i | 0 <= i < |Routed(init)| ensures Routed(init)[i].ledger <= last.ledger {
        assert Routed(init)[i] in init;
      }
    }
  }

  /**
   * End to end: take any transaction history, and any durable state an indexer of its events ever had,
   * through crashes, aborted ledgers, lost replies, budget errors and restarts.  The state's rows are
   * exactly the replay of the transactions up to its cursor, no event failed, and for every circle the
   * reconciliation diagnostic against the contract as of that ledger finds nothing to report.
   */
  lemma {:induction false} DurableRowsAgreeWithContracts(ix: Ingest.Indexer<Tables>, h: seq<Submitted>, i: nat, a: Address,
                                      latest: nat, members: seq<IndexedMember>, payouts: seq<IndexedPayout>)
    requires World.Ordered(h)
    requires ix.Valid() && ix.h == HANDLER && ix.init == Ingest.Core(EMPTY_TABLES, {})
    requires ix.chain == Routed(Run(h).events)
    requires i < |ix.log| && a in Run(AsOf(h, ix.log[i].cursor)).circles
    requires ReadsMembers(members, ix.log[i].core.rows, a) && ReadsPayouts(payouts, ix.log[i].core.rows, a)
    ensures var state, rows := Run(AsOf(h, ix.log[i].cursor)), ix.log[i].core.rows;
            && Replay(EMPTY_TABLES, state.events) == Done(rows)
            && Reflects(state.circles, rows)
            && ReadCircle(rows, a).Some?
            && Clean(ReadCircle(rows, a).value, members, payouts, ViewsOf(state.circles[a], latest))
  {
    var past := AsOf(h, ix.log[i].cursor);
    RunNoClash(h);
    Durability.DistinctNeverClash(HANDLER, EMPTY_TABLES, ix.chain, Ingest.Cut(ix.chain, ix.log[i].cursor));
    Durability.CrashRefinement(ix, i);
    EventsAsOf(h, ix.log[i].cursor);
    HistoryReflected(past);
    ReplayIsFold(EMPTY_TABLES, Run(past).events);
    MirroredIsClean(Run(past).circles[a], a, ix.log[i].core.rows, latest, members, payouts);
  }

  /**
   * And every row of every table, reconciled or not, is the one the events up to the cursor call for.
   */
  lemma {:induction false} DurableRowsReadOffLog(ix: Ingest.Indexer<Tables>, h: seq<Submitted>, i: nat)
    requires World.Ordered(h)
    requires ix.Valid() && ix.h == HANDLER && ix.init == Ingest.Core(EMPTY_TABLES, {})
    requires ix.chain == Routed(Run(h).events) && i < |ix.log|
    ensures Books.ReadOff(ix.log[i].core.rows, Run(AsOf(h, ix.log[i].cursor)).events)
  {
    var past := AsOf(h, ix.log[i].cursor);
    RunNoClash(h);
    Durability.DistinctNeverClash(HANDLER, EMPTY_TABLES, ix.chain, Ingest.Cut(ix.chain, ix.log[i].cursor));
    Durability.CrashRefinement(ix, i);
    EventsAsOf(h, ix.log[i].cursor);
    HistoryReflected(past);
    ReplayIsFold(EMPTY_TABLES, Run(past).events);
    Books.TablesReadOffLog(Run(past).events);
  }

  /** The handlers accept every routed event of a replay that succeeds. */
  lemma {:induction false} ReplayAccepts(t: Tables, events: seq<Event>, k: nat)
    requires Replay(t, events).Done? && k < |Routed(events)|
    ensures Durability.Accepted(HANDLER, t, Routed(events), k)
  {
    var init, last := events[..|events| - 1], events[|events| - 1];
    assert events == init + [last];
    ReplayAppend(t, init, [last]);
    ReplayOne(Replay(t, init).value, last);
    if k < |Routed(init)| {
      ReplayAccepts(t, init, k);
      assert Routed(events)[..k] == Routed(init)[..k];
    } else {
      ReplayIsFold(t, init);
      assert Routed(events)[..k] == Routed(init);
    }
  }

  /** Every event of a history takes effect in its place. */
  lemma {:induction false} HistorySucceeds(h: seq<Submitted>, k: nat)
    requires World.Ordered(h) && k < |Routed(Run(h).events)|
    ensures Durability.SucceedsAt(HANDLER, Ingest.Core(EMPTY_TABLES, {}), Routed(Run(h).events), k)
  {
    var chain := Routed(Run(h).events);
    HistoryReflected(h);
    ReplayAccepts(EMPTY_TABLES, Run(h).events, k);
    RunNoClash(h);
    Durability.DistinctNeverClash(HANDLER, EMPTY_TABLES, chain, |chain|);
    assert chain[..|chain|] == chain;
    Durability.PassIsFold(HANDLER, EMPTY_TABLES, chain);
    Durability.AttemptedPrefix(HANDLER, Ingest.Core(EMPTY_TABLES, {}), chain, k);
    Durability.SucceedsIfAccepted(HANDLER, Ingest.Core(EMPTY_TABLES, {}), chain, k);
  }

  /** So a commit over any stretch of it has no failure to record. */
  lemma {:induction false} NoneFails(h: seq<Submitted>, lo: nat, hi: nat)
    requires World.Ordered(h) && lo <= hi <= |Routed(Run(h).events)|
    ensures var chain := Routed(Run(h).events);
            Ingest.FailedIn(HANDLER, Ingest.Pass(HANDLER, Ingest.Core(EMPTY_TABLES, {}), chain[..lo]), chain[lo..hi]) == []
  {
    var chain, start := Routed(Run(h).events), Ingest.Core(EMPTY_TABLES, {});
    forall k | lo <= k < hi ensures Durability.SucceedsAt(HANDLER, start, chain, k) {
      HistorySucceeds(h, k);
    }
    Durability.AllSucceedNoneFail(HANDLER, start, chain, lo, hi);
  }

  /** An indexer that ingests a history, whatever its handlers, loses an event exactly when a commit loses its evidence. */
  lemma {:induction false} HistoryLossExactly(ix: Ingest.Indexer<Tables>, h: seq<Submitted>, i: nat)
    requires World.Ordered(h) && ix.Valid() && ix.init == Ingest.Core(EMPTY_TABLES, {})
    requires ix.chain == Routed(Run(h).events) && i < |ix.log|
    ensures Durability.Ledgered(Durability.StateAt(ix, i), ix.chain)
       <==> forall k :: 0 <= k < i ==> Durability.EvidenceKept(ix, k)
  {
    RunNoClash(h);
    RunDistinctIds(h);
    Durability.NothingLost(ix, i);
  }

  /**
   * With the projection's own handlers nothing is ever lost, whatever happens to the evidence: in every durable
   * state each event up to the cursor has taken effect, and no failure was ever recorded.
   */
  lemma {:induction false} HistoryLosesNothing(ix: Ingest.Indexer<Tables>, h: seq<Submitted>, i: nat)
    requires World.Ordered(h) && ix.Valid() && ix.h == HANDLER && ix.init == Ingest.Core(EMPTY_TABLES, {})
    requires ix.chain == Routed(Run(h).events) && i < |ix.log|
    ensures AllIngested(ix.chain[..Ingest.Cut(ix.chain, ix.log[i].cursor)], ix.log[i].core.ingested)
    ensures ix.log[i].failures == map[]
    ensures Durability.Ledgered(Durability.StateAt(ix, i), ix.chain)
  {
    assert Ingest.Synced(HANDLER, ix.chain, ix.init, ix.log[i]);
    PrefixIngested(h, Ingest.Cut(ix.chain, ix.log[i].cursor));
    NoFailureRows(ix, h, i);
    NoEvidenceNeeded(ix, h, i);
    RunNoClash(h);
    RunDistinctIds(h);
    Durability.LedgeredIfKept(ix, i);
  }

  ghost predicate AllIngested(events: seq<Event>, ingested: set<Ingest.Identity>) {
    forall j :: 0 <= j < |events| ==> Ingest.IdentityOf(events[j]) in ingested
  }

  lemma {:induction false} PrefixIngested(h: seq<Submitted>, n: nat)
    requires World.Ordered(h) && n <= |Routed(Run(h).events)|
    ensures var past := Routed(Run(h).events)[..n];
            AllIngested(past, Ingest.Pass(HANDLER, Ingest.Core(EMPTY_TABLES, {}), past).ingested)
  {
    var chain, start := Routed(Run(h).events), Ingest.Core(EMPTY_TABLES, {});
    var past := chain[..n];
    Durability.IngestedExactly(HANDLER, start, past);
    forall j | 0 <= j < n ensures Ingest.IdentityOf(past[j]) in Ingest.Pass(HANDLER, start, past).ingested {
      HistorySucceeds(h, j);
      assert past[..j] == chain[..j];
      assert Durability.SucceedsAt(HANDLER, start, past, j);
    }
  }

  lemma {:induction false} CommitFailsNothing(ix: Ingest.Indexer<Tables>, h: seq<Submitted>, k: nat)
    requires World.Ordered(h) && ix.Valid() && ix.h == HANDLER && ix.init == Ingest.Core(EMPTY_TABLES, {})
    requires ix.chain == Routed(Run(h).events) && k < |ix.steps|
    ensures Ingest.FailedIn(HANDLER, ix.log[k].core, Ingest.Slice(ix.chain, ix.log[k].cursor, ix.steps[k].ledger)) == []
  {
    Durability.LogStep(ix, k);
    assert Ingest.Synced(HANDLER, ix.chain, ix.init, ix.log[k]);
    Ingest.CutMonotone(ix.chain, ix.log[k].cursor, ix.steps[k].ledger);
    NoneFails(h, Ingest.Cut(ix.chain, ix.log[k].cursor), Ingest.Cut(ix.chain, ix.steps[k].ledger));
  }

  lemma {:induction false} NoEvidenceNeeded(ix: Ingest.Indexer<Tables>, h: seq<Submitted>, i: nat)
    requires World.Ordered(h) && ix.Valid() && ix.h == HANDLER && ix.init == Ingest.Core(EMPTY_TABLES, {})
    requires ix.chain == Routed(Run(h).events) && i <= |ix.steps|
    ensures Durability.EvidenceKeptBefore(ix, i)
  {
    if i > 0 {
      NoEvidenceNeeded(ix, h, i - 1);
      CommitFailsNothing(ix, h, i - 1);
    }
  }

  lemma {:induction false} NoFailureRows(ix: Ingest.Indexer<Tables>, h: seq<Submitted>, i: nat)
    requires World.Ordered(h) && ix.Valid() && ix.h == HANDLER && ix.init == Ingest.Core(EMPTY_TABLES, {})
    requires ix.chain == Routed(Run(h).events) && i < |ix.log|
    ensures ix.log[i].failures == map[]
  {
    if i > 0 {
      NoFailureRows(ix, h, i - 1);
      CommitFailsNothing(ix, h, i - 1);
      QuietStep(ix, i - 1);
    }
  }

  lemma {:induction false} QuietStep(ix: Ingest.Indexer<Tables>, k: nat)
    requires ix.Valid() && k < |ix.steps| && ix.log[k].failures == map[]
    requires Ingest.FailedIn(ix.h, ix.log[k].core, Ingest.Slice(ix.chain, ix.log[k].cursor, ix.steps[k].ledger)) == []
    ensures ix.log[k + 1].failures == map[]
  {
    assert Ingest.Steps(ix.h, ix.chain, ix.log[k], ix.steps[k], ix.log[k + 1]);
  }
}
