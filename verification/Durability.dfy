/** What durable ingestion guarantees over whole runs, and exactly when the dedup key gets in the way. */
module Durability {
  import opened Prelude
  import opened Events
  import opened Ingest

  // ----- Which events of a pass take effect -----

  predicate SucceedsAt<T>(h: Handler<T>, c: Core<T>, events: seq<Event>, k: nat)
    requires k < |events|
  {
    Succeeds(h, Pass(h, c, events[..k]), events[k])
  }

  predicate FailsAt<T>(h: Handler<T>, c: Core<T>, events: seq<Event>, k: nat)
    requires k < |events|
  {
    Fails(h, Pass(h, c, events[..k]), events[k])
  }

  /** The handler of event `k` is called at all: it is not taken for a duplicate. */
  predicate Attempted<T>(h: Handler<T>, c: Core<T>, events: seq<Event>, k: nat)
    requires k < |events|
  {
    !Seen(Pass(h, c, events[..k]).ingested, IdentityOf(events[k]))
  }

  /** The dedup rows after a pass are the earlier ones and those of the events that succeeded. */
  lemma {:induction false} IngestedExactly<T>(h: Handler<T>, c: Core<T>, events: seq<Event>)
    ensures forall r :: r in Pass(h, c, events).ingested <==>
      r in c.ingested || exists j :: 0 <= j < |events| && SucceedsAt(h, c, events, j) && IdentityOf(events[j]) == r
  {
    forall r ensures r in Pass(h, c, events).ingested <==> r in c.ingested || TookEffect(h, c, events, r) {
      IngestedRow(h, c, events, r);
    }
  }

  ghost predicate TookEffect<T>(h: Handler<T>, c: Core<T>, events: seq<Event>, r: Identity) {
    exists j :: 0 <= j < |events| && SucceedsAt(h, c, events, j) && IdentityOf(events[j]) == r
  }

  lemma {:induction false} TookEffectSnoc<T>(h: Handler<T>, c: Core<T>, events: seq<Event>, n: nat, r: Identity)
    requires |events| == n + 1
    ensures TookEffect(h, c, events, r)
       <==> TookEffect(h, c, events[..n], r) || (SucceedsAt(h, c, events, n) && IdentityOf(events[n]) == r)
  {
    forall j | 0 <= j < n ensures SucceedsAt(h, c, events[..n], j) == SucceedsAt(h, c, events, j) {
      assert events[..n][..j] == events[..j];
    }
    if TookEffect(h, c, events[..n], r) {
      var j :| 0 <= j < n && SucceedsAt(h, c, events[..n], j) && IdentityOf(events[..n][j]) == r;
      assert SucceedsAt(h, c, events, j);
    }
  }

  lemma {:induction false} IngestedRow<T>(h: Handler<T>, c: Core<T>, events: seq<Event>, r: Identity)
    ensures r in Pass(h, c, events).ingested <==> r in c.ingested || TookEffect(h, c, events, r)
  {
    if events != [] {
      var n := |events| - 1;
      IngestedRow(h, c, events[..n], r);
      TookEffectSnoc(h, c, events, n, r);
    }
  }

  // ----- What a ledger's commit writes besides the rows -----

  ghost function Successes<T>(h: Handler<T>, c: Core<T>, items: seq<Event>): set<nat> {
    set k: nat | k < |items| && SucceedsAt(h, c, items, k)
  }

  ghost function Failures<T>(h: Handler<T>, c: Core<T>, items: seq<Event>): set<nat> {
    set k: nat | k < |items| && FailsAt(h, c, items, k)
  }

  ghost function Duplicates<T>(h: Handler<T>, c: Core<T>, items: seq<Event>): set<nat> {
    set k: nat | k < |items| && !Attempted(h, c, items, k)
  }

  lemma {:induction false} PrefixOutcome<T>(h: Handler<T>, c: Core<T>, items: seq<Event>, n: nat, k: nat)
    requires k < n <= |items|
    ensures SucceedsAt(h, c, items[..n], k) == SucceedsAt(h, c, items, k)
    ensures FailsAt(h, c, items[..n], k) == FailsAt(h, c, items, k)
    ensures Attempted(h, c, items[..n], k) == Attempted(h, c, items, k)
  {
    assert items[..n][..k] == items[..k];
  }

  lemma {:induction false} OutcomesSnoc<T>(h: Handler<T>, c: Core<T>, items: seq<Event>, n: nat)
    requires |items| == n + 1
    ensures Successes(h, c, items) == Successes(h, c, items[..n]) + if SucceedsAt(h, c, items, n) then {n} else {}
    ensures Failures(h, c, items) == Failures(h, c, items[..n]) + if FailsAt(h, c, items, n) then {n} else {}
    ensures Duplicates(h, c, items) == Duplicates(h, c, items[..n]) + if Attempted(h, c, items, n) then {} else {n}
  {
    forall k: nat | k < n
      ensures (k in Successes(h, c, items) <==> k in Successes(h, c, items[..n]))
           && (k in Failures(h, c, items) <==> k in Failures(h, c, items[..n]))
           && (k in Duplicates(h, c, items) <==> k in Duplicates(h, c, items[..n]))
    {
      PrefixOutcome(h, c, items, n, k);
    }
  }

  lemma {:induction false} OneMore(s: set<nat>, n: nat, t: set<nat>, more: bool)
    requires t == s + (if more then {n} else {}) && n !in s
    ensures |t| == |s| + if more then 1 else 0
  {
  }

  lemma {:induction false} SizesSnoc<T>(h: Handler<T>, c: Core<T>, items: seq<Event>, n: nat)
    requires |items| == n + 1
    ensures |Successes(h, c, items)| == |Successes(h, c, items[..n])| + if SucceedsAt(h, c, items, n) then 1 else 0
    ensures |Failures(h, c, items)| == |Failures(h, c, items[..n])| + if FailsAt(h, c, items, n) then 1 else 0
    ensures |Duplicates(h, c, items)| == |Duplicates(h, c, items[..n])| + if Attempted(h, c, items, n) then 0 else 1
  {
    OutcomesSnoc(h, c, items, n);
    OneMore(Successes(h, c, items[..n]), n, Successes(h, c, items), SucceedsAt(h, c, items, n));
    OneMore(Failures(h, c, items[..n]), n, Failures(h, c, items), FailsAt(h, c, items, n));
    OneMore(Duplicates(h, c, items[..n]), n, Duplicates(h, c, items), !Attempted(h, c, items, n));
  }

  /** The lists have one entry per event that succeeded or failed; the rest are duplicates. */
  lemma {:induction false} ListLengths<T>(h: Handler<T>, c: Core<T>, items: seq<Event>)
    ensures |SucceededIn(h, c, items)| == |Successes(h, c, items)|
    ensures |FailedIn(h, c, items)| == |Failures(h, c, items)|
    ensures |items| == |Successes(h, c, items)| + |Failures(h, c, items)| + |Duplicates(h, c, items)|
  {
    if items != [] {
      var n := |items| - 1;
      ListLengths(h, c, items[..n]);
      SizesSnoc(h, c, items, n);
    }
  }

  lemma {:induction false} IngestedGrows<T>(h: Handler<T>, c: Core<T>, items: seq<Event>)
    ensures |Pass(h, c, items).ingested| == |c.ingested| + |SucceededIn(h, c, items)|
  {
    if items != [] {
      var n := |items| - 1;
      IngestedGrows(h, c, items[..n]);
      var before, i := Pass(h, c, items[..n]).ingested, IdentityOf(items[n]);
      assert Clashes(i, i);
      assert i in before ==> Seen(before, i);
    }
  }

  /**
   * What a commit writes besides rows and evidence: the cursor is the ledger, its checkpoint counts the new
   * dedup rows and the events that were attempted without leaving one, and no other checkpoint changes.
   */
  lemma {:induction false} CheckpointCounts<T>(h: Handler<T>, db: Db<T>, ledger: nat, items: seq<Event>, evidenceOk: bool)
    ensures var after := Commit(h, db, ledger, items, evidenceOk);
            && after.cursor == ledger && after.checkpoints.Keys == db.checkpoints.Keys + {ledger}
            && |after.core.ingested| == |db.core.ingested| + after.checkpoints[ledger].processed
            && after.checkpoints[ledger].failed == |set k: nat | k < |items| && FailsAt(h, db.core, items, k)|
            && |items| == after.checkpoints[ledger].processed + after.checkpoints[ledger].failed
                          + |set k: nat | k < |items| && !Attempted(h, db.core, items, k)|
            && forall l :: l in db.checkpoints && l != ledger ==> after.checkpoints[l] == db.checkpoints[l]
  {
    ListLengths(h, db.core, items);
    IngestedGrows(h, db.core, items);
  }

  /** What makes one event stand in another's way: equal but for the position, or the same place of one transaction. */
  lemma {:induction false} ClashesExactly(e: Event, f: Event)
    ensures Clashes(IdentityOf(e), IdentityOf(f)) <==>
      && e.ledger == f.ledger && e.txHash == f.txHash
      && ((e.contractId == f.contractId && e.payload == f.payload) || (e.eventIndex.Some? && e.eventIndex == f.eventIndex))
  {
  }

  /** Two deliveries with the same key, or the same ledger position, never both take effect. */
  lemma {:induction false} AppliedAtMostOnce<T>(h: Handler<T>, c: Core<T>, events: seq<Event>, i: nat, j: nat)
    requires i < j < |events| && Clashes(IdentityOf(events[i]), IdentityOf(events[j]))
    ensures !(SucceedsAt(h, c, events, i) && SucceedsAt(h, c, events, j))
  {
    if SucceedsAt(h, c, events, i) {
      IngestedExactly(h, c, events[..j]);
      assert events[..j][..i] == events[..i];
      assert SucceedsAt(h, c, events[..j], i);
      assert IdentityOf(events[i]) in Pass(h, c, events[..j]).ingested;
    }
  }

  /**
   * Every event's handler is called exactly when no event clashes with an earlier one that was ingested.
   * The key leaves out the position, so this is a condition on the chain, not a consequence of it.
   */
  lemma {:induction false} AllAttemptedExactly<T>(h: Handler<T>, c: Core<T>, events: seq<Event>)
    requires c.ingested == {}
    ensures (forall k :: 0 <= k < |events| ==> Attempted(h, c, events, k)) <==>
            (forall j, k :: 0 <= j < k < |events| && Clashes(IdentityOf(events[j]), IdentityOf(events[k]))
               ==> !SucceedsAt(h, c, events, j))
  {
    forall k | 0 <= k < |events|
      ensures Attempted(h, c, events, k) <==>
        forall j :: 0 <= j < k && Clashes(IdentityOf(events[j]), IdentityOf(events[k])) ==> !SucceedsAt(h, c, events, j)
    {
      IngestedExactly(h, c, events[..k]);
      forall j | 0 <= j < k ensures SucceedsAt(h, c, events[..k], j) == SucceedsAt(h, c, events, j) {
        assert events[..k][..j] == events[..j];
      }
      if !Attempted(h, c, events, k) {
        var r :| r in Pass(h, c, events[..k]).ingested && Clashes(r, IdentityOf(events[k]));
        var j :| 0 <= j < k && SucceedsAt(h, c, events[..k], j) && IdentityOf(events[..k][j]) == r;
        assert SucceedsAt(h, c, events, j);
      }
      if j :| 0 <= j < k && Clashes(IdentityOf(events[j]), IdentityOf(events[k])) && SucceedsAt(h, c, events, j) {
        assert SucceedsAt(h, c, events[..k], j);
        assert IdentityOf(events[..k][j]) in Pass(h, c, events[..k]).ingested;
      }
    }
  }

  /** No two events of the chain share a key or a ledger position. */
  ghost predicate NoClash(chain: seq<Event>) {
    forall i, j :: 0 <= i < j < |chain| ==> !Clashes(IdentityOf(chain[i]), IdentityOf(chain[j]))
  }

  ghost predicate AllAttempted<T>(h: Handler<T>, c: Core<T>, events: seq<Event>) {
    forall k :: 0 <= k < |events| ==> Attempted(h, c, events, k)
  }

  /** The handlers applied once each, in order; a failing handler leaves the rows alone. */
  function FoldRows<T>(h: Handler<T>, rows: T, events: seq<Event>): T {
    if events == [] then rows
    else
      var before := FoldRows(h, rows, events[..|events| - 1]);
      match h(before, events[|events| - 1])
      case Done(after) => after
      case Failed(_) => before
  }

  /** The handler accepts event `k` when all events before it have been handled, without regard to keys. */
  predicate Accepted<T>(h: Handler<T>, rows: T, events: seq<Event>, k: nat)
    requires k < |events|
  {
    h(FoldRows(h, rows, events[..k]), events[k]).Done?
  }

  lemma {:induction false} AttemptedPrefix<T>(h: Handler<T>, c: Core<T>, events: seq<Event>, n: nat)
    requires AllAttempted(h, c, events) && n <= |events|
    ensures AllAttempted(h, c, events[..n])
  {
    forall k | 0 <= k < n ensures Attempted(h, c, events[..n], k) {
      assert events[..n][..k] == events[..k];
      assert Attempted(h, c, events, k);
    }
  }

  lemma {:induction false} AttemptedIsFold<T>(h: Handler<T>, c: Core<T>, events: seq<Event>)
    requires AllAttempted(h, c, events)
    ensures Pass(h, c, events).rows == FoldRows(h, c.rows, events)
  {
    if events != [] {
      var n := |events| - 1;
      AttemptedPrefix(h, c, events, n);
      AttemptedIsFold(h, c, events[..n]);
      assert Attempted(h, c, events, n);
    }
  }

  /** No event clashes with an earlier one that the handlers, applied in order, accept. */
  ghost predicate NoAcceptedClash<T>(h: Handler<T>, rows: T, events: seq<Event>) {
    forall j, k :: 0 <= j < k < |events| && Clashes(IdentityOf(events[j]), IdentityOf(events[k]))
      ==> !Accepted(h, rows, events, j)
  }

  lemma {:induction false} SucceedsIfAccepted<T>(h: Handler<T>, c: Core<T>, events: seq<Event>, j: nat)
    requires j < |events| && AllAttempted(h, c, events[..j])
    ensures SucceedsAt(h, c, events, j) <==> Attempted(h, c, events, j) && Accepted(h, c.rows, events, j)
  {
    AttemptedIsFold(h, c, events[..j]);
  }

  lemma {:induction false} FreeOfClashes<T>(h: Handler<T>, c: Core<T>, events: seq<Event>)
    requires c.ingested == {} && NoAcceptedClash(h, c.rows, events)
    ensures AllAttempted(h, c, events)
  {
    if events != [] {
      var n := |events| - 1;
      forall j, k | 0 <= j < k < n && Clashes(IdentityOf(events[..n][j]), IdentityOf(events[..n][k]))
        ensures !Accepted(h, c.rows, events[..n], j)
      {
        assert events[..n][..j] == events[..j];
        assert !Accepted(h, c.rows, events, j);
      }
      FreeOfClashes(h, c, events[..n]);
      forall j, k | 0 <= j < k < |events| && Clashes(IdentityOf(events[j]), IdentityOf(events[k]))
        ensures !SucceedsAt(h, c, events, j)
      {
        AttemptedPrefix(h, c, events[..n], j);
        assert events[..n][..j] == events[..j];
        SucceedsIfAccepted(h, c, events, j);
      }
      AllAttemptedExactly(h, c, events);
    }
  }

  /**
   * The same as a condition on the chain and the handlers alone: every event is attempted exactly when none
   * clashes with an earlier one that the handlers, applied in order, accept.
   */
  lemma {:induction false} AllAttemptedByFold<T>(h: Handler<T>, c: Core<T>, events: seq<Event>)
    requires c.ingested == {}
    ensures AllAttempted(h, c, events) <==> NoAcceptedClash(h, c.rows, events)
  {
    if AllAttempted(h, c, events) {
      AllAttemptedExactly(h, c, events);
      forall j, k | 0 <= j < k < |events| && Clashes(IdentityOf(events[j]), IdentityOf(events[k]))
        ensures !Accepted(h, c.rows, events, j)
      {
        AttemptedPrefix(h, c, events, j);
        SucceedsIfAccepted(h, c, events, j);
        assert Attempted(h, c, events, j);
      }
    } else if NoAcceptedClash(h, c.rows, events) {
      FreeOfClashes(h, c, events);
    }
  }

  /** Where the handlers accept every event, all are attempted exactly when no two of them clash. */
  lemma {:induction false} AllAttemptedIfDistinct<T>(h: Handler<T>, c: Core<T>, events: seq<Event>)
    requires c.ingested == {} && forall k :: 0 <= k < |events| ==> Accepted(h, c.rows, events, k)
    ensures AllAttempted(h, c, events) <==> NoClash(events)
  {
    AllAttemptedByFold(h, c, events);
  }

  /** Two identical events of one transaction: the second is dropped and leaves neither a row nor evidence. */
  lemma {:induction false} IdenticalEventsCollapse<T>(h: Handler<T>, c: Core<T>, e: Event, f: Event)
    requires c.ingested == {} && h(c.rows, e).Done?
    requires f == e.(pos := f.pos, eventIndex := f.eventIndex)
    ensures KeyOf(e) == KeyOf(f)
    ensures Pass(h, c, [e, f]) == Pass(h, c, [e])
    ensures FailedIn(h, c, [e, f]) == [] && SucceededIn(h, c, [e, f]) == [IdOf(e)]
  {
    assert [e, f][..1] == [e] && [e][..0] == [];
    var one := Pass(h, c, [e]);
    assert Pass(h, c, [e][..0]) == c;
    assert one == One(h, c, e);
    assert IdentityOf(e) in one.ingested;
    assert Clashes(IdentityOf(e), IdentityOf(f));
    assert SucceededIn(h, c, [e]) == [] + [IdOf(e)];
    assert FailedIn(h, c, [e]) == [] + [];
  }

  // ----- Crash refinement -----

  lemma {:induction false} PassIsFold<T>(h: Handler<T>, rows: T, events: seq<Event>)
    requires NoAcceptedClash(h, rows, events)
    ensures Pass(h, Core(rows, {}), events).rows == FoldRows(h, rows, events)
    ensures AllAttempted(h, Core(rows, {}), events)
  {
    FreeOfClashes(h, Core(rows, {}), events);
    AttemptedIsFold(h, Core(rows, {}), events);
  }

  lemma {:induction false} DistinctNeverClash<T>(h: Handler<T>, rows: T, chain: seq<Event>, n: nat)
    requires NoClash(chain) && n <= |chain|
    ensures NoAcceptedClash(h, rows, chain[..n])
  {
  }

  /**
   * Crash refinement: after any sequence of polls, crashes, aborted transactions and lost replies, the
   * durable rows are those of one sequential fold of the handlers over the chain up to the cursor, each event
   * attempted, and so were all earlier durable rows up to theirs.  The dedup key must not get in the way:
   * `AllAttemptedByFold` has the condition as an equivalence.
   */
  lemma {:induction false} CrashRefinement<T(!new)>(ix: Indexer<T>, i: nat)
    requires ix.Valid() && ix.init.ingested == {} && i < |ix.log|
    requires NoAcceptedClash(ix.h, ix.init.rows, ix.chain[..Cut(ix.chain, ix.log[i].cursor)])
    ensures ix.log[i].core.rows == FoldRows(ix.h, ix.init.rows, ix.chain[..Cut(ix.chain, ix.log[i].cursor)])
    ensures AllAttempted(ix.h, ix.init, ix.chain[..Cut(ix.chain, ix.log[i].cursor)])
    ensures ix.log[i].cursor <= ix.db.cursor
  {
    PassIsFold(ix.h, ix.init.rows, ix.chain[..Cut(ix.chain, ix.log[i].cursor)]);
    assert Synced(ix.h, ix.chain, ix.init, ix.log[i]);
  }

  // ----- No silent loss, with operator rewinds -----

  /** Committed steps: a ledger range, with or without its evidence, or a rewind that retries failed events. */
  datatype Action = IngestTo(ledger: nat, evidenceOk: bool) | RewindTo(from: nat)

  /** `high` is the highest ledger the cursor has reached. */
  datatype State<T> = State(db: Db<T>, high: nat)

  predicate Commits<T>(s: State<T>, a: Action) {
    a.IngestTo? && s.db.cursor <= a.ledger
  }

  function Next<T>(h: Handler<T>, chain: seq<Event>, s: State<T>, a: Action): State<T> {
    if Commits(s, a) then
      State(Commit(h, s.db, a.ledger, Slice(chain, s.db.cursor, a.ledger), a.evidenceOk),
            if s.high < a.ledger then a.ledger else s.high)
    else if a.RewindTo? && a.from <= s.db.cursor then s.(db := s.db.(cursor := if a.from == 0 then 0 else a.from - 1))
    else s
  }

  function FailedBy<T>(h: Handler<T>, chain: seq<Event>, s: State<T>, a: Action): seq<EventId> {
    if Commits(s, a) then FailedIn(h, s.db.core, Slice(chain, s.db.cursor, a.ledger)) else []
  }

  function SucceededBy<T>(h: Handler<T>, chain: seq<Event>, s: State<T>, a: Action): seq<EventId> {
    if Commits(s, a) then SucceededIn(h, s.db.core, Slice(chain, s.db.cursor, a.ledger)) else []
  }

  function After<T>(h: Handler<T>, chain: seq<Event>, rows: T, actions: seq<Action>): State<T> {
    if actions == [] then State(Db(Core(rows, {}), map[], 0, map[]), 0)
    else Next(h, chain, After(h, chain, rows, actions[..|actions| - 1]), actions[|actions| - 1])
  }

  /** In how many commits that wrote their evidence the event's handler failed. */
  function TimesRecorded<T>(h: Handler<T>, chain: seq<Event>, rows: T, actions: seq<Action>, id: EventId): nat {
    if actions == [] then 0
    else
      var init, a := actions[..|actions| - 1], actions[|actions| - 1];
      TimesRecorded(h, chain, rows, init, id)
      + if a.IngestTo? && a.evidenceOk && id in FailedBy(h, chain, After(h, chain, rows, init), a) then 1 else 0
  }

  predicate Open(failures: map<EventId, Failure>, id: EventId) {
    id in failures && !failures[id].resolved
  }

  ghost predicate DistinctIds(chain: seq<Event>) {
    forall i, j :: 0 <= i < j < |chain| ==> IdOf(chain[i]) != IdOf(chain[j])
  }

  ghost predicate FromChain(ingested: set<Identity>, chain: seq<Event>) {
    forall r :: r in ingested ==> exists i :: 0 <= i < |chain| && IdentityOf(chain[i]) == r
  }

  /** Event `i` has taken effect or has an open failure row, and not both. */
  predicate Accounted<T>(db: Db<T>, e: Event) {
    IdentityOf(e) in db.core.ingested <==> !Open(db.failures, IdOf(e))
  }

  predicate Untouched<T>(db: Db<T>, e: Event) {
    IdentityOf(e) !in db.core.ingested && IdOf(e) !in db.failures
  }

  /** What one event of a slice becomes: success and failure are exclusive and recorded under its own id. */
  lemma {:induction false} OutcomeLists<T>(h: Handler<T>, c: Core<T>, items: seq<Event>)
    requires DistinctIds(items)
    ensures forall id :: id in SucceededIn(h, c, items) <==>
      exists k :: 0 <= k < |items| && IdOf(items[k]) == id && SucceedsAt(h, c, items, k)
    ensures forall id :: id in FailedIn(h, c, items) <==>
      exists k :: 0 <= k < |items| && IdOf(items[k]) == id && FailsAt(h, c, items, k)
    ensures Distinct(FailedIn(h, c, items))
  {
    SuccessList(h, c, items);
    FailureList(h, c, items);
  }

  lemma {:induction false} SuccessList<T>(h: Handler<T>, c: Core<T>, items: seq<Event>)
    ensures forall id :: id in SucceededIn(h, c, items) <==>
      exists k :: 0 <= k < |items| && IdOf(items[k]) == id && SucceedsAt(h, c, items, k)
  {
    forall id ensures id in SucceededIn(h, c, items) <==> SomeSucceeds(h, c, items, id) {
      SuccessListed(h, c, items, id);
    }
  }

  ghost predicate SomeSucceeds<T>(h: Handler<T>, c: Core<T>, items: seq<Event>, id: EventId) {
    exists k :: 0 <= k < |items| && IdOf(items[k]) == id && SucceedsAt(h, c, items, k)
  }

  lemma {:induction false} SuccessListed<T>(h: Handler<T>, c: Core<T>, items: seq<Event>, id: EventId)
    ensures id in SucceededIn(h, c, items) <==> SomeSucceeds(h, c, items, id)
  {
    if items != [] {
      SuccessListed(h, c, items[..|items| - 1], id);
      SomeSucceedsSnoc(h, c, items, |items| - 1, id);
    }
  }

  lemma {:induction false} SomeSucceedsSnoc<T>(h: Handler<T>, c: Core<T>, items: seq<Event>, n: nat, id: EventId)
    requires |items| == n + 1
    ensures SomeSucceeds(h, c, items, id)
       <==> SomeSucceeds(h, c, items[..n], id) || (SucceedsAt(h, c, items, n) && IdOf(items[n]) == id)
  {
    forall k | 0 <= k < n ensures SucceedsAt(h, c, items[..n], k) == SucceedsAt(h, c, items, k) {
      assert items[..n][..k] == items[..k];
    }
    if SomeSucceeds(h, c, items[..n], id) {
      var k :| 0 <= k < n && IdOf(items[..n][k]) == id && SucceedsAt(h, c, items[..n], k);
      assert SucceedsAt(h, c, items, k);
    }
  }

  lemma {:induction false} FailureList<T>(h: Handler<T>, c: Core<T>, items: seq<Event>)
    requires DistinctIds(items)
    ensures forall id :: id in FailedIn(h, c, items) <==>
      exists k :: 0 <= k < |items| && IdOf(items[k]) == id && FailsAt(h, c, items, k)
    ensures Distinct(FailedIn(h, c, items))
  {
    forall id ensures id in FailedIn(h, c, items) <==> SomeFails(h, c, items, id) {
      FailureListed(h, c, items, id);
    }
    FailuresDistinct(h, c, items);
  }

  ghost predicate SomeFails<T>(h: Handler<T>, c: Core<T>, items: seq<Event>, id: EventId) {
    exists k :: 0 <= k < |items| && IdOf(items[k]) == id && FailsAt(h, c, items, k)
  }

  lemma {:induction false} FailureListed<T>(h: Handler<T>, c: Core<T>, items: seq<Event>, id: EventId)
    ensures id in FailedIn(h, c, items) <==> SomeFails(h, c, items, id)
  {
    if items != [] {
      FailureListed(h, c, items[..|items| - 1], id);
      SomeFailsSnoc(h, c, items, |items| - 1, id);
    }
  }

  lemma {:induction false} SomeFailsSnoc<T>(h: Handler<T>, c: Core<T>, items: seq<Event>, n: nat, id: EventId)
    requires |items| == n + 1
    ensures SomeFails(h, c, items, id)
       <==> SomeFails(h, c, items[..n], id) || (FailsAt(h, c, items, n) && IdOf(items[n]) == id)
  {
    forall k | 0 <= k < n ensures FailsAt(h, c, items[..n], k) == FailsAt(h, c, items, k) {
      assert items[..n][..k] == items[..k];
    }
    if SomeFails(h, c, items[..n], id) {
      var k :| 0 <= k < n && IdOf(items[..n][k]) == id && FailsAt(h, c, items[..n], k);
      assert FailsAt(h, c, items, k);
    }
  }

  lemma {:induction false} FailuresDistinct<T>(h: Handler<T>, c: Core<T>, items: seq<Event>)
    requires DistinctIds(items)
    ensures Distinct(FailedIn(h, c, items))
  {
    if items != [] {
      var n := |items| - 1;
      FailuresDistinct(h, c, items[..n]);
      FailureListed(h, c, items[..n], IdOf(items[n]));
      assert IdOf(items[n]) !in FailedIn(h, c, items[..n]);
    }
  }

  lemma {:induction false} UpsertAllExactly(failures: map<EventId, Failure>, ids: seq<EventId>)
    requires Distinct(ids)
    ensures forall id :: id in UpsertAll(failures, ids) <==> id in failures || id in ids
    ensures forall id :: id in UpsertAll(failures, ids) ==>
      UpsertAll(failures, ids)[id] ==
        if id in ids then Failure(if id in failures then failures[id].attempts + 1 else 1, false) else failures[id]
  {
    if ids != [] {
      UpsertAllExactly(failures, ids[..|ids| - 1]);
      assert ids[|ids| - 1] !in ids[..|ids| - 1];
    }
  }

  /** Rows of other events of the chain do not stand in an event's way. */
  lemma {:induction false} RowsApart(chain: seq<Event>, ingested: set<Identity>, k: nat)
    requires NoClash(chain) && FromChain(ingested, chain) && k < |chain|
    ensures Seen(ingested, IdentityOf(chain[k])) <==> IdentityOf(chain[k]) in ingested
  {
    assert Clashes(IdentityOf(chain[k]), IdentityOf(chain[k]));
    forall r | r in ingested && r != IdentityOf(chain[k]) ensures !Clashes(r, IdentityOf(chain[k])) {
      var i :| 0 <= i < |chain| && IdentityOf(chain[i]) == r;
    }
  }

  /** Without clashes an event of the slice counts as a duplicate only if it was itself ingested before. */
  lemma {:induction false} SliceAttempts<T>(h: Handler<T>, c: Core<T>, chain: seq<Event>, lo: nat, hi: nat, k: nat)
    requires NoClash(chain) && FromChain(c.ingested, chain) && lo <= hi <= |chain| && k < hi - lo
    ensures Attempted(h, c, chain[lo..hi], k) <==> IdentityOf(chain[lo + k]) !in c.ingested
  {
    var before := Pass(h, c, chain[lo..lo + k]).ingested;
    assert chain[lo..hi][..k] == chain[lo..lo + k];
    SliceKept(h, c, chain, lo, lo + k);
    RowsApart(chain, before, lo + k);
    NotYetIngested(h, c, chain, lo, lo + k);
  }

  /** Until its turn comes, a pass over the chain does not ingest an event that was not ingested before. */
  lemma {:induction false} NotYetIngested<T>(h: Handler<T>, c: Core<T>, chain: seq<Event>, lo: nat, i: nat)
    requires NoClash(chain) && lo <= i < |chain|
    ensures IdentityOf(chain[i]) in Pass(h, c, chain[lo..i]).ingested <==> IdentityOf(chain[i]) in c.ingested
  {
    IngestedRow(h, c, chain[lo..i], IdentityOf(chain[i]));
    forall j | 0 <= j < i - lo ensures IdentityOf(chain[lo..i][j]) != IdentityOf(chain[i]) {
      assert !Clashes(IdentityOf(chain[lo + j]), IdentityOf(chain[i]));
    }
  }

  /** The state between committed steps of any run: nothing above the highest ledger reached has left a trace. */
  ghost predicate Grounded<T>(s: State<T>, chain: seq<Event>) {
    && s.db.cursor <= s.high
    && FromChain(s.db.core.ingested, chain)
    && (forall i :: Cut(chain, s.high) <= i < |chain| ==> Untouched(s.db, chain[i]))
  }

  /** And each event up to that ledger is accounted for. */
  ghost predicate Ledgered<T>(s: State<T>, chain: seq<Event>) {
    Grounded(s, chain) && forall i :: 0 <= i < Cut(chain, s.high) ==> Accounted(s.db, chain[i])
  }

  /** One commit's effect on the failure row of an id that failed, succeeded, or was not attempted. */
  lemma {:induction false} EvidenceOf(failures: map<EventId, Failure>, failed: seq<EventId>, succeeded: seq<EventId>, id: EventId)
    requires Distinct(failed)
    ensures var after := Resolve(UpsertAll(failures, failed), succeeded);
            && (id in after <==> id in failures || id in failed)
            && (id in after ==>
                  (after[id].attempts
                   == (if id in failures then failures[id].attempts else 0) + (if id in failed then 1 else 0)))
            && (Open(after, id) <==> id !in succeeded && (id in failed || Open(failures, id)))
  {
    UpsertAllExactly(failures, failed);
  }

  /** The chain events a commit up to `ledger` attempts for the first time. */
  ghost predicate Fresh<T>(db: Db<T>, chain: seq<Event>, ledger: nat, i: nat)
    requires i < |chain|
  {
    Cut(chain, db.cursor) <= i < Cut(chain, ledger) && IdentityOf(chain[i]) !in db.core.ingested
  }

  /** What a pass over `items` did to event `e`. */
  ghost predicate Settled<T>(h: Handler<T>, c: Core<T>, items: seq<Event>, e: Event, attempted: bool) {
    var failed, succeeded := IdOf(e) in FailedIn(h, c, items), IdOf(e) in SucceededIn(h, c, items);
    && (failed || succeeded <==> attempted)
    && !(failed && succeeded)
    && (IdentityOf(e) in Pass(h, c, items).ingested <==> IdentityOf(e) in c.ingested || succeeded)
  }

  lemma {:induction false} InsideSlice<T>(h: Handler<T>, c: Core<T>, chain: seq<Event>, lo: nat, hi: nat, k: nat)
    requires NoClash(chain) && DistinctIds(chain) && FromChain(c.ingested, chain)
    requires lo <= hi <= |chain| && k < hi - lo
    ensures Settled(h, c, chain[lo..hi], chain[lo + k], IdentityOf(chain[lo + k]) !in c.ingested)
  {
    var items := chain[lo..hi];
    SliceAttempts(h, c, chain, lo, hi, k);
    SliceOutcome(h, c, items, k);
    IngestedExactly(h, c, items);
  }

  lemma {:induction false} OutsideSlice<T>(h: Handler<T>, c: Core<T>, chain: seq<Event>, lo: nat, hi: nat, i: nat)
    requires NoClash(chain) && DistinctIds(chain) && lo <= hi <= |chain| && i < |chain| && !(lo <= i < hi)
    ensures Settled(h, c, chain[lo..hi], chain[i], false)
  {
    var items := chain[lo..hi];
    OutcomeLists(h, c, items);
    IngestedExactly(h, c, items);
    forall k | 0 <= k < |items| ensures IdOf(items[k]) != IdOf(chain[i]) && IdentityOf(items[k]) != IdentityOf(chain[i]) {
      assert items[k] == chain[lo + k];
    }
  }

  /** An event attempted in a commit either succeeds and is ingested or fails; others are left as they were. */
  lemma {:induction false} OutcomeOf<T>(h: Handler<T>, db: Db<T>, chain: seq<Event>, ledger: nat, i: nat)
    requires NoClash(chain) && DistinctIds(chain) && Ingest.Ordered(chain)
    requires FromChain(db.core.ingested, chain) && db.cursor <= ledger && i < |chain|
    ensures Settled(h, db.core, Slice(chain, db.cursor, ledger), chain[i], Fresh(db, chain, ledger, i))
  {
    CutMonotone(chain, db.cursor, ledger);
    OutcomeIn(h, db.core, chain, Cut(chain, db.cursor), Cut(chain, ledger), i);
  }

  lemma {:induction false} OutcomeIn<T>(h: Handler<T>, c: Core<T>, chain: seq<Event>, lo: nat, hi: nat, i: nat)
    requires NoClash(chain) && DistinctIds(chain) && FromChain(c.ingested, chain)
    requires lo <= hi <= |chain| && i < |chain|
    ensures Settled(h, c, chain[lo..hi], chain[i], lo <= i < hi && IdentityOf(chain[i]) !in c.ingested)
  {
    if lo <= i < hi {
      InsideSlice(h, c, chain, lo, hi, i - lo);
    } else {
      OutsideSlice(h, c, chain, lo, hi, i);
    }
  }

  lemma {:induction false} SliceOutcome<T>(h: Handler<T>, c: Core<T>, items: seq<Event>, k: nat)
    requires k < |items| && DistinctIds(items)
    requires forall j :: 0 <= j < |items| && IdOf(items[j]) == IdOf(items[k]) ==> j == k
    ensures IdOf(items[k]) in SucceededIn(h, c, items) <==> SucceedsAt(h, c, items, k)
    ensures IdOf(items[k]) in FailedIn(h, c, items) <==> FailsAt(h, c, items, k)
    ensures SucceedsAt(h, c, items, k) || FailsAt(h, c, items, k) <==> Attempted(h, c, items, k)
  {
    OutcomeLists(h, c, items);
  }

  lemma {:induction false} SliceKept<T>(h: Handler<T>, c: Core<T>, chain: seq<Event>, lo: nat, hi: nat)
    requires FromChain(c.ingested, chain) && lo <= hi <= |chain|
    ensures FromChain(Pass(h, c, chain[lo..hi]).ingested, chain)
  {
    var items := chain[lo..hi];
    IngestedExactly(h, c, items);
    forall r | r in Pass(h, c, items).ingested && r !in c.ingested
      ensures exists i :: 0 <= i < |chain| && IdentityOf(chain[i]) == r
    {
      var j :| 0 <= j < |items| && SucceedsAt(h, c, items, j) && IdentityOf(items[j]) == r;
      assert IdentityOf(chain[lo + j]) == r;
    }
  }

  /** The pass over a stretch of the chain, started where the pass before it ended, is the pass over the chain. */
  lemma {:induction false} PassContinues<T>(h: Handler<T>, c: Core<T>, chain: seq<Event>, lo: nat, k: nat)
    requires lo <= k <= |chain|
    ensures Pass(h, Pass(h, c, chain[..lo]), chain[lo..k]) == Pass(h, c, chain[..k])
  {
    assert chain[..lo] + chain[lo..k] == chain[..k];
    PassAppend(h, c, chain[..lo], chain[lo..k]);
  }

  lemma {:induction false} AllSucceedNoneFail<T>(h: Handler<T>, c: Core<T>, chain: seq<Event>, lo: nat, hi: nat)
    requires lo <= hi <= |chain| && forall k :: lo <= k < hi ==> SucceedsAt(h, c, chain, k)
    ensures FailedIn(h, Pass(h, c, chain[..lo]), chain[lo..hi]) == []
    decreases hi
  {
    if lo < hi {
      AllSucceedNoneFail(h, c, chain, lo, hi - 1);
      OneMoreSucceeds(h, c, chain, lo, hi - 1);
    }
  }

  lemma {:induction false} OneMoreSucceeds<T>(h: Handler<T>, c: Core<T>, chain: seq<Event>, lo: nat, k: nat)
    requires lo <= k < |chain| && SucceedsAt(h, c, chain, k)
    requires FailedIn(h, Pass(h, c, chain[..lo]), chain[lo..k]) == []
    ensures FailedIn(h, Pass(h, c, chain[..lo]), chain[lo..k + 1]) == []
  {
    PassContinues(h, c, chain, lo, k);
    assert chain[lo..k + 1][..k - lo] == chain[lo..k];
    SuccessFailsNothing(h, Pass(h, c, chain[..lo]), chain[lo..k + 1], k - lo);
  }

  lemma {:induction false} SuccessFailsNothing<T>(h: Handler<T>, c: Core<T>, items: seq<Event>, k: nat)
    requires |items| == k + 1 && FailedIn(h, c, items[..k]) == [] && SucceedsAt(h, c, items, k)
    ensures FailedIn(h, c, items) == []
  {
  }

  lemma {:induction false} FromChainKept<T>(h: Handler<T>, db: Db<T>, chain: seq<Event>, ledger: nat)
    requires FromChain(db.core.ingested, chain)
    ensures FromChain(Pass(h, db.core, Slice(chain, db.cursor, ledger)).ingested, chain)
  {
    var lo, hi := Cut(chain, db.cursor), Cut(chain, ledger);
    if lo <= hi {
      SliceKept(h, db.core, chain, lo, hi);
    }
  }

  /** What one commit does to one event of the chain. */
  lemma {:induction false} CommitEffect<T>(h: Handler<T>, db: Db<T>, chain: seq<Event>, ledger: nat, ok: bool, i: nat)
    requires NoClash(chain) && DistinctIds(chain) && Ingest.Ordered(chain)
    requires FromChain(db.core.ingested, chain) && db.cursor <= ledger && i < |chain|
    ensures var items, e := Slice(chain, db.cursor, ledger), chain[i];
            var after := Commit(h, db, ledger, items, ok);
            var failed, succeeded := IdOf(e) in FailedIn(h, db.core, items), IdOf(e) in SucceededIn(h, db.core, items);
            && (failed || succeeded <==> Fresh(db, chain, ledger, i)) && !(failed && succeeded)
            && (IdentityOf(e) in after.core.ingested <==> IdentityOf(e) in db.core.ingested || succeeded)
            && (IdOf(e) in after.failures <==> IdOf(e) in db.failures || (ok && failed))
            && (Open(after.failures, IdOf(e))
                <==> if ok then !succeeded && (failed || Open(db.failures, IdOf(e))) else Open(db.failures, IdOf(e)))
  {
    var items := Slice(chain, db.cursor, ledger);
    assert DistinctIds(items);
    OutcomeLists(h, db.core, items);
    OutcomeOf(h, db, chain, ledger, i);
    EvidenceOf(db.failures, FailedIn(h, db.core, items), SucceededIn(h, db.core, items), IdOf(chain[i]));
  }

  lemma {:induction false} NextGrounded<T>(h: Handler<T>, chain: seq<Event>, s: State<T>, a: Action)
    requires NoClash(chain) && DistinctIds(chain) && Ingest.Ordered(chain) && Grounded(s, chain)
    ensures Grounded(Next(h, chain, s, a), chain)
  {
    if Commits(s, a) {
      var t := Next(h, chain, s, a);
      FromChainKept(h, s.db, chain, a.ledger);
      CutMonotone(chain, s.high, t.high);
      CutMonotone(chain, a.ledger, t.high);
      forall i | Cut(chain, t.high) <= i < |chain| ensures Untouched(t.db, chain[i]) {
        CommitEffect(h, s.db, chain, a.ledger, a.evidenceOk, i);
        assert Untouched(s.db, chain[i]);
      }
    }
  }

  /**
   * The commit leaves no gap: its evidence was written, or there was none to write, as every event that failed
   * has an open row already and none that succeeded has one.
   */
  ghost predicate Recorded<T>(h: Handler<T>, chain: seq<Event>, s: State<T>, a: Action) {
    Commits(s, a) && !a.evidenceOk ==>
      && (forall id :: id in FailedBy(h, chain, s, a) ==> Open(s.db.failures, id))
      && (forall id :: id in SucceededBy(h, chain, s, a) ==> !Open(s.db.failures, id))
  }

  lemma {:induction false} RecordedAccounts<T>(h: Handler<T>, chain: seq<Event>, s: State<T>, a: Action, i: nat)
    requires NoClash(chain) && DistinctIds(chain) && Ingest.Ordered(chain) && Ledgered(s, chain)
    requires Commits(s, a) && Recorded(h, chain, s, a) && i < Cut(chain, Next(h, chain, s, a).high)
    ensures Accounted(Next(h, chain, s, a).db, chain[i])
  {
    CutMonotone(chain, s.db.cursor, s.high);
    CommitEffect(h, s.db, chain, a.ledger, a.evidenceOk, i);
    assert if i < Cut(chain, s.high) then Accounted(s.db, chain[i]) else Untouched(s.db, chain[i]);
  }

  /** An event that a commit attempted lies between its cursor and its ledger. */
  lemma {:induction false} AttemptedInRange<T>(h: Handler<T>, chain: seq<Event>, s: State<T>, a: Action, id: EventId) returns (i: nat)
    requires DistinctIds(chain) && Ingest.Ordered(chain) && Commits(s, a)
    requires id in FailedBy(h, chain, s, a) || id in SucceededBy(h, chain, s, a)
    ensures Cut(chain, s.db.cursor) <= i < Cut(chain, a.ledger) && IdOf(chain[i]) == id
  {
    CutMonotone(chain, s.db.cursor, a.ledger);
    i := ListedInSlice(h, s.db.core, chain, Cut(chain, s.db.cursor), Cut(chain, a.ledger), id);
  }

  lemma {:induction false} ListedInSlice<T>(h: Handler<T>, c: Core<T>, chain: seq<Event>, lo: nat, hi: nat, id: EventId) returns (i: nat)
    requires DistinctIds(chain) && lo <= hi <= |chain|
    requires id in FailedIn(h, c, chain[lo..hi]) || id in SucceededIn(h, c, chain[lo..hi])
    ensures lo <= i < hi && IdOf(chain[i]) == id
  {
    var items := chain[lo..hi];
    assert DistinctIds(items);
    OutcomeLists(h, c, items);
    var k :| 0 <= k < |items| && IdOf(items[k]) == id;
    i := lo + k;
  }

  lemma {:induction false} AccountsRecorded<T>(h: Handler<T>, chain: seq<Event>, s: State<T>, a: Action)
    requires NoClash(chain) && DistinctIds(chain) && Ingest.Ordered(chain) && Grounded(s, chain)
    requires Ledgered(Next(h, chain, s, a), chain)
    ensures Recorded(h, chain, s, a)
  {
    if Commits(s, a) && !a.evidenceOk {
      var t := Next(h, chain, s, a);
      CutMonotone(chain, a.ledger, t.high);
      forall id | id in FailedBy(h, chain, s, a) || id in SucceededBy(h, chain, s, a)
        ensures Open(s.db.failures, id) <==> id in FailedBy(h, chain, s, a)
      {
        var i := AttemptedInRange(h, chain, s, a, id);
        CommitEffect(h, s.db, chain, a.ledger, false, i);
        assert Accounted(t.db, chain[i]);
      }
      forall id | id in SucceededBy(h, chain, s, a) ensures !Open(s.db.failures, id) {
        var i := AttemptedInRange(h, chain, s, a, id);
        CommitEffect(h, s.db, chain, a.ledger, false, i);
      }
    }
  }

  /** A commit keeps every event accounted for exactly when it leaves no gap. */
  lemma {:induction false} NextLedgered<T>(h: Handler<T>, chain: seq<Event>, s: State<T>, a: Action)
    requires NoClash(chain) && DistinctIds(chain) && Ingest.Ordered(chain) && Ledgered(s, chain)
    ensures Ledgered(Next(h, chain, s, a), chain) <==> Recorded(h, chain, s, a)
  {
    NextGrounded(h, chain, s, a);
    var t := Next(h, chain, s, a);
    if Ledgered(t, chain) {
      AccountsRecorded(h, chain, s, a);
    } else if Recorded(h, chain, s, a) && Commits(s, a) {
      forall i | 0 <= i < Cut(chain, t.high) ensures Accounted(t.db, chain[i]) {
        RecordedAccounts(h, chain, s, a, i);
      }
    }
  }

  /** Every event is accounted for in each state of the run. */
  ghost predicate LedgeredThroughout<T>(h: Handler<T>, chain: seq<Event>, rows: T, actions: seq<Action>) {
    && Ledgered(After(h, chain, rows, actions), chain)
    && (actions != [] ==> LedgeredThroughout(h, chain, rows, actions[..|actions| - 1]))
  }

  /** No commit of the run leaves a gap. */
  ghost predicate RecordedThroughout<T>(h: Handler<T>, chain: seq<Event>, rows: T, actions: seq<Action>) {
    actions != [] ==>
      var init := actions[..|actions| - 1];
      && Recorded(h, chain, After(h, chain, rows, init), actions[|actions| - 1])
      && RecordedThroughout(h, chain, rows, init)
  }

  /**
   * No silent loss, exactly: throughout a run of committed ledgers and retry rewinds, each event up to the
   * highest ledger reached has either taken effect or has an open failure row and never both, and events above
   * it have neither, if and only if no commit leaves a gap.
   */
  lemma {:induction false} NoSilentLoss<T>(h: Handler<T>, chain: seq<Event>, rows: T, actions: seq<Action>)
    requires NoClash(chain) && DistinctIds(chain) && Ingest.Ordered(chain)
    requires forall i :: 0 <= i < |chain| ==> chain[i].ledger > 0
    ensures LedgeredThroughout(h, chain, rows, actions) <==> RecordedThroughout(h, chain, rows, actions)
  {
    if actions == [] {
      NoneUpTo(chain, 0);
    } else {
      var init := actions[..|actions| - 1];
      NoSilentLoss(h, chain, rows, init);
      if LedgeredThroughout(h, chain, rows, init) {
        NextLedgered(h, chain, After(h, chain, rows, init), actions[|actions| - 1]);
      }
    }
  }

  /** A failing event whose evidence is lost is lost: the cursor has passed it and it left neither row nor evidence. */
  lemma {:induction false} LostEvidence<T>(h: Handler<T>, rows: T, e: Event)
    requires h(rows, e).Failed?
    ensures var s := After(h, [e], rows, [IngestTo(e.ledger, false)]);
            s.db.cursor == e.ledger && IdentityOf(e) !in s.db.core.ingested && IdOf(e) !in s.db.failures
  {
    var start := After(h, [e], rows, []);
    assert [IngestTo(e.ledger, false)][..0] == [];
    assert After(h, [e], rows, [IngestTo(e.ledger, false)]) == Next(h, [e], start, IngestTo(e.ledger, false));
    var items := Slice([e], 0, e.ledger);
    assert items == [e] || items == [];
    assert items == [e] ==> items[..0] == [];
    assert Pass(h, start.db.core, items) == start.db.core;
  }

  /** `attempts` is exactly the number of commits that recorded a failure of the event. */
  lemma {:induction false} AttemptsCountFailures<T>(h: Handler<T>, chain: seq<Event>, rows: T, actions: seq<Action>, id: EventId)
    requires DistinctIds(chain)
    ensures var failures := After(h, chain, rows, actions).db.failures;
            && (id in failures <==> TimesRecorded(h, chain, rows, actions, id) > 0)
            && (id in failures ==> failures[id].attempts == TimesRecorded(h, chain, rows, actions, id))
  {
    if actions != [] {
      var init, a := actions[..|actions| - 1], actions[|actions| - 1];
      var s := After(h, chain, rows, init);
      AttemptsCountFailures(h, chain, rows, init, id);
      if Commits(s, a) {
        var items := Slice(chain, s.db.cursor, a.ledger);
        assert DistinctIds(items);
        OutcomeLists(h, s.db.core, items);
        EvidenceOf(s.db.failures, FailedIn(h, s.db.core, items), SucceededIn(h, s.db.core, items), id);
      }
    }
  }

  /**
   * A retried event whose handler now succeeds moves from the failure rows to the ingested events, if the
   * commit writes its evidence; one that already took effect is never applied again, whatever is rewound.
   */
  lemma {:induction false} RetryMovesOver<T>(h: Handler<T>, chain: seq<Event>, s: State<T>, ledger: nat, ok: bool, i: nat)
    requires NoClash(chain) && DistinctIds(chain) && Ingest.Ordered(chain) && Grounded(s, chain)
    requires i < |chain| && s.db.cursor <= ledger
    ensures var t, e := Next(h, chain, s, IngestTo(ledger, ok)), chain[i];
            var items := Slice(chain, s.db.cursor, ledger);
            && (IdOf(e) in SucceededIn(h, s.db.core, items) ==>
                  && IdentityOf(e) !in s.db.core.ingested && IdentityOf(e) in t.db.core.ingested
                  && (Open(t.db.failures, IdOf(e)) <==> !ok && Open(s.db.failures, IdOf(e))))
            && (IdentityOf(e) in s.db.core.ingested ==>
                  && IdentityOf(e) in t.db.core.ingested
                  && IdOf(e) !in SucceededIn(h, s.db.core, items) && IdOf(e) !in FailedIn(h, s.db.core, items))
  {
    CommitEffect(h, s.db, chain, ledger, ok, i);
  }

  /** The state after more actions. */
  function AfterMore<T>(h: Handler<T>, chain: seq<Event>, s: State<T>, actions: seq<Action>): State<T> {
    if actions == [] then s
    else Next(h, chain, AfterMore(h, chain, s, actions[..|actions| - 1]), actions[|actions| - 1])
  }

  /** One of the actions is a commit in which the event's handler succeeded or failed. */
  ghost predicate TriedIn<T>(h: Handler<T>, chain: seq<Event>, s: State<T>, actions: seq<Action>, id: EventId) {
    && actions != []
    && var init, a := actions[..|actions| - 1], actions[|actions| - 1];
       || TriedIn(h, chain, s, init, id)
       || id in FailedBy(h, chain, AfterMore(h, chain, s, init), a)
       || id in SucceededBy(h, chain, AfterMore(h, chain, s, init), a)
  }

  /** A retry comes back to every event from its ledger on: once the cursor has reached it, it was tried again. */
  lemma {:induction false} RetryComesBack<T>(h: Handler<T>, chain: seq<Event>, s: State<T>, from: nat, commits: seq<Action>, i: nat)
    requires NoClash(chain) && DistinctIds(chain) && Ingest.Ordered(chain) && Grounded(s, chain)
    requires from <= s.db.cursor && i < |chain| && from <= chain[i].ledger && 0 < chain[i].ledger
    requires IdentityOf(chain[i]) !in s.db.core.ingested && forall a :: a in commits ==> a.IngestTo?
    ensures var rewound := Next(h, chain, s, RewindTo(from));
            && rewound.db.cursor < chain[i].ledger && from <= rewound.db.cursor + 1
            && rewound.db.core == s.db.core && rewound.db.failures == s.db.failures
            && (AfterMore(h, chain, rewound, commits).db.cursor >= chain[i].ledger ==>
                  TriedIn(h, chain, rewound, commits, IdOf(chain[i])))
  {
    var rewound := Next(h, chain, s, RewindTo(from));
    NextGrounded(h, chain, s, RewindTo(from));
    TriedOrAhead(h, chain, rewound, commits, i);
  }

  lemma {:induction false} TriedOrAhead<T>(h: Handler<T>, chain: seq<Event>, s: State<T>, commits: seq<Action>, i: nat)
    requires NoClash(chain) && DistinctIds(chain) && Ingest.Ordered(chain) && Grounded(s, chain)
    requires i < |chain| && s.db.cursor < chain[i].ledger && IdentityOf(chain[i]) !in s.db.core.ingested
    requires forall a :: a in commits ==> a.IngestTo?
    ensures var t := AfterMore(h, chain, s, commits);
            Grounded(t, chain) && (TriedIn(h, chain, s, commits, IdOf(chain[i])) || AheadOf(t, chain[i]))
  {
    if commits != [] {
      var init, a := commits[..|commits| - 1], commits[|commits| - 1];
      var before := AfterMore(h, chain, s, init);
      TriedOrAhead(h, chain, s, init, i);
      NextGrounded(h, chain, before, a);
      if AheadOf(before, chain[i]) && Commits(before, a) {
        CommitTries(h, chain, before, a, i);
      }
    }
  }

  /** The event is still to come. */
  ghost predicate AheadOf<T>(s: State<T>, e: Event) {
    s.db.cursor < e.ledger && IdentityOf(e) !in s.db.core.ingested
  }

  /** A commit tries the events its cursor passes. */
  lemma {:induction false} CommitTries<T>(h: Handler<T>, chain: seq<Event>, s: State<T>, a: Action, i: nat)
    requires NoClash(chain) && DistinctIds(chain) && Ingest.Ordered(chain) && FromChain(s.db.core.ingested, chain)
    requires i < |chain| && Commits(s, a) && AheadOf(s, chain[i])
    ensures var id := IdOf(chain[i]);
            AheadOf(Next(h, chain, s, a), chain[i]) || id in FailedBy(h, chain, s, a) || id in SucceededBy(h, chain, s, a)
  {
    CommitEffect(h, s.db, chain, a.ledger, a.evidenceOk, i);
    CutSplits(chain, s.db.cursor);
    CutSplits(chain, a.ledger);
  }

  // ----- The indexer's own commits -----

  /** The indexer's durable state number `k`; without rewinds the cursor is the highest ledger reached. */
  ghost function StateAt<T(!new)>(ix: Indexer<T>, k: nat): State<T>
    requires k < |ix.log|
    reads ix
  {
    State(ix.log[k], ix.log[k].cursor)
  }

  ghost function ActionAt<T(!new)>(ix: Indexer<T>, k: nat): Action
    requires k < |ix.steps|
    reads ix
  {
    IngestTo(ix.steps[k].ledger, ix.steps[k].evidenceOk)
  }

  lemma {:induction false} LogStep<T(!new)>(ix: Indexer<T>, k: nat)
    requires ix.Valid() && k < |ix.steps|
    ensures Commits(StateAt(ix, k), ActionAt(ix, k))
    ensures StateAt(ix, k + 1) == Next(ix.h, ix.chain, StateAt(ix, k), ActionAt(ix, k))
  {
    assert Steps(ix.h, ix.chain, ix.log[k], ix.steps[k], ix.log[k + 1]);
  }

  /** At first no ledger is reached and no event has left a trace. */
  lemma {:induction false} LogStart<T(!new)>(ix: Indexer<T>)
    requires ix.Valid() && ix.init.ingested == {}
    ensures Ledgered(StateAt(ix, 0), ix.chain)
  {
    NoneUpTo(ix.chain, 0);
  }

  lemma {:induction false} LogGrounded<T(!new)>(ix: Indexer<T>, k: nat)
    requires ix.Valid() && k < |ix.log| && ix.init.ingested == {}
    requires NoClash(ix.chain) && DistinctIds(ix.chain)
    ensures Grounded(StateAt(ix, k), ix.chain)
  {
    if k == 0 {
      LogStart(ix);
    } else {
      LogGrounded(ix, k - 1);
      StaysGrounded(ix, k - 1);
    }
  }

  lemma {:induction false} StaysGrounded<T(!new)>(ix: Indexer<T>, k: nat)
    requires ix.Valid() && k < |ix.steps| && NoClash(ix.chain) && DistinctIds(ix.chain)
    requires Grounded(StateAt(ix, k), ix.chain)
    ensures Grounded(StateAt(ix, k + 1), ix.chain)
  {
    LogStep(ix, k);
    NextGrounded(ix.h, ix.chain, StateAt(ix, k), ActionAt(ix, k));
  }

  /** Without rewinds every attempted event is new, so there is evidence to write exactly when one fails. */
  lemma {:induction false} RecordedIfNew<T>(h: Handler<T>, chain: seq<Event>, s: State<T>, a: Action)
    requires NoClash(chain) && DistinctIds(chain) && Ingest.Ordered(chain)
    requires Grounded(s, chain) && s.high == s.db.cursor && Commits(s, a)
    ensures Recorded(h, chain, s, a) <==> a.evidenceOk || FailedBy(h, chain, s, a) == []
  {
    forall id | id in FailedBy(h, chain, s, a) || id in SucceededBy(h, chain, s, a) ensures !Open(s.db.failures, id) {
      var i := AttemptedInRange(h, chain, s, a, id);
      assert Untouched(s.db, chain[i]);
    }
    if FailedBy(h, chain, s, a) != [] {
      assert FailedBy(h, chain, s, a)[0] in FailedBy(h, chain, s, a);
    }
  }

  /** And a gap stays: later commits do not come back to the event. */
  lemma {:induction false} GapStays<T>(h: Handler<T>, chain: seq<Event>, s: State<T>, a: Action)
    requires NoClash(chain) && DistinctIds(chain) && Ingest.Ordered(chain)
    requires Grounded(s, chain) && s.high == s.db.cursor && Commits(s, a) && Ledgered(Next(h, chain, s, a), chain)
    ensures Ledgered(s, chain)
  {
    var t := Next(h, chain, s, a);
    CutMonotone(chain, s.high, t.high);
    forall i | 0 <= i < Cut(chain, s.high) ensures Accounted(s.db, chain[i]) {
      CommitEffect(h, s.db, chain, a.ledger, a.evidenceOk, i);
      assert Accounted(t.db, chain[i]);
    }
  }

  /** Commit `k` wrote its evidence, or no event failed in it. */
  ghost predicate EvidenceKept<T(!new)>(ix: Indexer<T>, k: nat)
    requires k < |ix.steps| && |ix.log| == |ix.steps| + 1
    reads ix
  {
    ix.steps[k].evidenceOk || FailedIn(ix.h, ix.log[k].core, Slice(ix.chain, ix.log[k].cursor, ix.steps[k].ledger)) == []
  }

  /** The same of every commit before number `n`. */
  ghost predicate EvidenceKeptBefore<T(!new)>(ix: Indexer<T>, n: nat)
    requires n <= |ix.steps| && |ix.log| == |ix.steps| + 1
    reads ix
  {
    n > 0 ==> EvidenceKeptBefore(ix, n - 1) && EvidenceKept(ix, n - 1)
  }

  lemma {:induction false} KeptBefore<T(!new)>(ix: Indexer<T>, n: nat)
    requires n <= |ix.steps| && |ix.log| == |ix.steps| + 1
    ensures EvidenceKeptBefore(ix, n) <==> forall k :: 0 <= k < n ==> EvidenceKept(ix, k)
  {
    if EvidenceKeptBefore(ix, n) {
      forall k | 0 <= k < n ensures EvidenceKept(ix, k) {
        KeptAt(ix, n, k);
      }
    } else if forall k :: 0 <= k < n ==> EvidenceKept(ix, k) {
      KeptUpTo(ix, n);
    }
  }

  lemma {:induction false} KeptAt<T(!new)>(ix: Indexer<T>, n: nat, k: nat)
    requires k < n <= |ix.steps| && |ix.log| == |ix.steps| + 1 && EvidenceKeptBefore(ix, n)
    ensures EvidenceKept(ix, k)
  {
    if k < n - 1 {
      KeptAt(ix, n - 1, k);
    }
  }

  lemma {:induction false} KeptUpTo<T(!new)>(ix: Indexer<T>, n: nat)
    requires n <= |ix.steps| && |ix.log| == |ix.steps| + 1 && forall k :: 0 <= k < n ==> EvidenceKept(ix, k)
    ensures EvidenceKeptBefore(ix, n)
  {
    if n > 0 {
      KeptUpTo(ix, n - 1);
      assert EvidenceKept(ix, n - 1);
    }
  }

  lemma {:induction false} LedgeredIfKept<T(!new)>(ix: Indexer<T>, i: nat)
    requires ix.Valid() && i < |ix.log| && ix.init.ingested == {}
    requires NoClash(ix.chain) && DistinctIds(ix.chain)
    ensures Ledgered(StateAt(ix, i), ix.chain) <==> EvidenceKeptBefore(ix, i)
  {
    if i == 0 {
      LogStart(ix);
    } else {
      LedgeredIfKept(ix, i - 1);
      StepLoss(ix, i - 1);
    }
  }

  /**
   * No silent loss for the indexer itself, exactly: in a durable state each event up to the cursor has taken
   * effect or has an open failure row, never both, and the events above the cursor have neither, if and only if
   * every commit before it in which an event failed wrote its evidence.
   */
  lemma {:induction false} NothingLost<T(!new)>(ix: Indexer<T>, i: nat)
    requires ix.Valid() && i < |ix.log| && ix.init.ingested == {}
    requires NoClash(ix.chain) && DistinctIds(ix.chain)
    ensures Ledgered(StateAt(ix, i), ix.chain) <==> forall k :: 0 <= k < i ==> EvidenceKept(ix, k)
  {
    LedgeredIfKept(ix, i);
    KeptBefore(ix, i);
  }

  lemma {:induction false} StepLoss<T(!new)>(ix: Indexer<T>, k: nat)
    requires ix.Valid() && k < |ix.steps| && ix.init.ingested == {}
    requires NoClash(ix.chain) && DistinctIds(ix.chain)
    ensures Ledgered(StateAt(ix, k + 1), ix.chain) <==> Ledgered(StateAt(ix, k), ix.chain) && EvidenceKept(ix, k)
  {
    var s, a := StateAt(ix, k), ActionAt(ix, k);
    LogGrounded(ix, k);
    LogStep(ix, k);
    RecordedIfNew(ix.h, ix.chain, s, a);
    if Ledgered(StateAt(ix, k + 1), ix.chain) {
      GapStays(ix.h, ix.chain, s, a);
    }
    if Ledgered(s, ix.chain) {
      NextLedgered(ix.h, ix.chain, s, a);
    }
  }

  // ----- Catching up -----

  function CeilDiv(n: int, d: nat): int
    requires d > 0
  {
    if n <= 0 then 0 else (n + d - 1) / d
  }

  lemma {:induction false} Multiples(p: int, q: int, d: nat)
    requires p < q
    ensures p * d + d <= q * d
  {
    assert q * d == p * d + d + (q - p - 1) * d;
  }

  lemma {:induction false} CeilDivBounds(n: nat, d: nat)
    requires d > 0
    ensures n <= CeilDiv(n, d) * d < n + d
  {
  }

  lemma {:induction false} CeilDivBy(n: nat, d: nat, q: nat)
    requires d > 0 && n <= q * d < n + d
    ensures CeilDiv(n, d) == q
  {
    var p := CeilDiv(n, d);
    CeilDivBounds(n, d);
    if p < q {
      Multiples(p, q, d);
    } else if q < p {
      Multiples(q, p, d);
    }
  }

  /** Reaching the end of a batch leaves one batch less to do. */
  lemma {:induction false} OneBatchLess(last: nat, head: nat, maxLedgers: nat, to: nat)
    requires maxLedgers > 0 && last < head && to == BatchEnd(last + 1, head, maxLedgers)
    ensures last < to <= head
    ensures CeilDiv(head - last, maxLedgers) == 1 + CeilDiv(head - to, maxLedgers)
  {
    if to == head {
      CeilDivBy(head - last, maxLedgers, 1);
    } else {
      var q := CeilDiv(head - to, maxLedgers);
      CeilDivBounds(head - to, maxLedgers);
      assert (q + 1) * maxLedgers == q * maxLedgers + maxLedgers;
      CeilDivBy(head - last, maxLedgers, q + 1);
    }
  }

  lemma {:induction false} CeilDivMonotone(m: int, n: nat, d: nat)
    requires d > 0 && m <= n
    ensures CeilDiv(m, d) <= CeilDiv(n, d)
  {
    if 0 < m && CeilDiv(n, d) < CeilDiv(m, d) {
      CeilDivBounds(m, d);
      CeilDivBounds(n, d);
      Multiples(CeilDiv(n, d), CeilDiv(m, d), d);
    }
  }

  /** Every fetch gives its items. */
  ghost predicate Fetches(fetch: (nat, nat) -> Fetched) {
    forall lo, hi :: fetch(lo, hi).Items?
  }

  /** One poll of a range that is not blocked by its budget: it reaches the end of the batch, or fails. */
  method PollBatch<T(!new)>(ix: Indexer<T>, head: nat, fetch: (nat, nat) -> Fetched, c: Conditions) returns (ok: bool)
    requires ix.Valid() && ResumeAfter(ix.db.cursor, ix.startLedger) < head
    requires forall lo, hi :: fetch(lo, hi).Items? ==> fetch(lo, hi).items == Slice(ix.chain, lo, hi)
    requires forall lo, hi :: !fetch(lo, hi).BudgetExceeded?
    modifies ix`db, ix`log, ix`steps
    ensures ix.Valid()
    ensures var last := ResumeAfter(old(ix.db.cursor), ix.startLedger);
            && last <= ResumeAfter(ix.db.cursor, ix.startLedger)
            && (ok ==> ix.db.cursor == BatchEnd(last + 1, head, ix.maxLedgers) > last)
    ensures Undisturbed(c) && Fetches(fetch) ==> ok
  {
    var r := ix.RunPollCycle(head, fetch, c);
    return r.Polled?;
  }

  /** So it leaves one batch less to do, or loses nothing. */
  method PollCounted<T(!new)>(ix: Indexer<T>, head: nat, fetch: (nat, nat) -> Fetched, c: Conditions) returns (ok: bool)
    requires ix.Valid() && ResumeAfter(ix.db.cursor, ix.startLedger) < head
    requires forall lo, hi :: fetch(lo, hi).Items? ==> fetch(lo, hi).items == Slice(ix.chain, lo, hi)
    requires forall lo, hi :: !fetch(lo, hi).BudgetExceeded?
    modifies ix`db, ix`log, ix`steps
    ensures ix.Valid()
    ensures ok ==> ResumeAfter(old(ix.db.cursor), ix.startLedger) < ix.db.cursor <= head
    ensures if ok then old(BatchesLeft(ix, head)) == BatchesLeft(ix, head) + 1
            else old(BatchesLeft(ix, head)) >= BatchesLeft(ix, head)
    ensures Undisturbed(c) && Fetches(fetch) ==> ok
  {
    var last, batch := ResumeAfter(ix.db.cursor, ix.startLedger), ix.maxLedgers;
    OneBatchLess(last, head, batch, BatchEnd(last + 1, head, batch));
    ok := PollBatch(ix, head, fetch, c);
    if !ok {
      CeilDivMonotone(head - ResumeAfter(ix.db.cursor, ix.startLedger), head - last, batch);
    }
  }

  /** How many full batches lie between the ledger the next poll resumes after and the head. */
  function BatchesLeft<T(!new)>(ix: Indexer<T>, head: nat): int
    requires ix.maxLedgers > 0
    reads ix
  {
    CeilDiv(head - ResumeAfter(ix.db.cursor, ix.startLedger), ix.maxLedgers)
  }

  /**
   * Polls an indexer until its cursor is at the head.  Without budget errors exactly
   * ceil((head - start) / maxLedgers) successful polls do it, where the start ledger stands for a cursor that
   * was never set; a poll that fails for another reason loses none of the progress made before it, and none fails
   * where every fetch gives its items and nothing disturbs the ledgers.
   */
  method CatchUp<T(!new)>(ix: Indexer<T>, head: nat, fetch: (nat, nat) -> Fetched, cs: nat -> Conditions)
    returns (polls: nat, ok: bool)
    requires ix.Valid()
    requires forall lo, hi :: fetch(lo, hi).Items? ==> fetch(lo, hi).items == Slice(ix.chain, lo, hi)
    requires forall lo, hi :: !fetch(lo, hi).BudgetExceeded?
    modifies ix`db, ix`log, ix`steps
    ensures ix.Valid()
    ensures var start := ResumeAfter(old(ix.db.cursor), ix.startLedger);
            && (ok ==> polls == CeilDiv(head - start, ix.maxLedgers))
            && (ok ==> if start < head then ix.db.cursor == head else ix.db == old(ix.db))
            && (!ok ==> polls + BatchesLeft(ix, head) <= CeilDiv(head - start, ix.maxLedgers))
    ensures Fetches(fetch) && (forall k :: Undisturbed(cs(k))) ==> ok
  {
    polls := 0;
    if ResumeAfter(ix.db.cursor, ix.startLedger) >= head {
      return 0, true;
    }
    while ResumeAfter(ix.db.cursor, ix.startLedger) < head
      invariant ix.Valid() && ResumeAfter(ix.db.cursor, ix.startLedger) <= head
      invariant polls + BatchesLeft(ix, head) == old(BatchesLeft(ix, head))
      invariant ResumeAfter(ix.db.cursor, ix.startLedger) == head ==> ix.db.cursor == head
      decreases head - ResumeAfter(ix.db.cursor, ix.startLedger)
    {
      ok := PollCounted(ix, head, fetch, cs(polls));
      if !ok {
        return polls, false;
      }
      polls := polls + 1;
    }
    return polls, true;
  }
}
