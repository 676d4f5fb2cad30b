/**
 * Durable ingestion.  A database value holds the projected rows, the dedup rows, the failure evidence,
 * the cursor and the per-ledger checkpoints; one transaction ingests one ledger, with a savepoint per
 * event.  Crashes, transient database errors and lost COMMIT replies are arbitrary inputs.
 */
module Ingest {
  import opened Prelude
  import opened Events

  type Handler<!T> = (T, Event) -> Outcome<T>

  /** What the two unique constraints of `ingested_events` look at. */
  datatype Identity = Identity(key: EventKey, index: Option<nat>)

  function IdentityOf(e: Event): Identity {
    Identity(KeyOf(e), e.eventIndex)
  }

  /** INSERT ... ON CONFLICT DO NOTHING inserts nothing when the key or (ledger, tx, index) is taken. */
  predicate Clashes(a: Identity, b: Identity) {
    || a.key == b.key
    || (a.index.Some? && a.index == b.index && a.key.ledger == b.key.ledger && a.key.txHash == b.key.txHash)
  }

  predicate Seen(ingested: set<Identity>, i: Identity) {
    exists r :: r in ingested && Clashes(r, i)
  }

  datatype Core<T> = Core(rows: T, ingested: set<Identity>)

  datatype Failure = Failure(attempts: nat, resolved: bool)
  datatype Checkpoint = Checkpoint(processed: nat, failed: nat)

  datatype Db<T> = Db(
    core: Core<T>, failures: map<EventId, Failure>, cursor: nat, checkpoints: map<nat, Checkpoint>)

  /** One event inside its savepoint: a duplicate or a failing handler leaves rows and dedup rows alone. */
  function One<T>(h: Handler<T>, c: Core<T>, e: Event): Core<T> {
    if Seen(c.ingested, IdentityOf(e)) then c
    else
      match h(c.rows, e)
      case Done(rows) => Core(rows, c.ingested + {IdentityOf(e)})
      case Failed(_) => c
  }

  predicate Succeeds<T>(h: Handler<T>, c: Core<T>, e: Event) {
    !Seen(c.ingested, IdentityOf(e)) && h(c.rows, e).Done?
  }

  predicate Fails<T>(h: Handler<T>, c: Core<T>, e: Event) {
    !Seen(c.ingested, IdentityOf(e)) && h(c.rows, e).Failed?
  }

  /** A sequential pass over events. */
  function Pass<T>(h: Handler<T>, c: Core<T>, events: seq<Event>): Core<T> {
    if events == [] then c else One(h, Pass(h, c, events[..|events| - 1]), events[|events| - 1])
  }

  function SucceededIn<T>(h: Handler<T>, c: Core<T>, events: seq<Event>): seq<EventId> {
    if events == [] then []
    else
      var init, e := events[..|events| - 1], events[|events| - 1];
      SucceededIn(h, c, init) + if Succeeds(h, Pass(h, c, init), e) then [IdOf(e)] else []
  }

  function FailedIn<T>(h: Handler<T>, c: Core<T>, events: seq<Event>): seq<EventId> {
    if events == [] then []
    else
      var init, e := events[..|events| - 1], events[|events| - 1];
      FailedIn(h, c, init) + if Fails(h, Pass(h, c, init), e) then [IdOf(e)] else []
  }

  /** ON CONFLICT (event_id) DO UPDATE SET attempts = attempts + 1, resolved_at = NULL */
  function Upsert(failures: map<EventId, Failure>, id: EventId): map<EventId, Failure> {
    failures[id := Failure(if id in failures then failures[id].attempts + 1 else 1, false)]
  }

  function UpsertAll(failures: map<EventId, Failure>, ids: seq<EventId>): map<EventId, Failure> {
    if ids == [] then failures else Upsert(UpsertAll(failures, ids[..|ids| - 1]), ids[|ids| - 1])
  }

  /** UPDATE ... SET resolved_at = NOW() WHERE event_id = ANY(ids) */
  function Resolve(failures: map<EventId, Failure>, ids: seq<EventId>): map<EventId, Failure> {
    map id | id in failures :: if id in ids then failures[id].(resolved := true) else failures[id]
  }

  /** The database after a ledger's transaction commits; a failed evidence savepoint only loses the evidence. */
  function Commit<T>(h: Handler<T>, db: Db<T>, ledger: nat, items: seq<Event>, evidenceOk: bool): Db<T> {
    var failed, succeeded := FailedIn(h, db.core, items), SucceededIn(h, db.core, items);
    Db(Pass(h, db.core, items),
       if evidenceOk then Resolve(UpsertAll(db.failures, failed), succeeded) else db.failures,
       ledger,
       db.checkpoints[ledger := Checkpoint(|succeeded|, |failed|)])
  }

  // ----- The chain of events to ingest -----

  ghost predicate Ordered(chain: seq<Event>) {
    forall i, j :: 0 <= i < j < |chain| ==> chain[i].ledger <= chain[j].ledger
  }

  /** How many events of the chain lie in ledgers up to `n`. */
  function Cut(chain: seq<Event>, n: nat): (k: nat)
    ensures k <= |chain|
  {
    if chain == [] || chain[|chain| - 1].ledger <= n then |chain| else Cut(chain[..|chain| - 1], n)
  }

  lemma {:induction false} CutSplits(chain: seq<Event>, n: nat)
    requires Ordered(chain)
    ensures forall i :: 0 <= i < |chain| ==> (i < Cut(chain, n) <==> chain[i].ledger <= n)
  {
    if chain != [] && chain[|chain| - 1].ledger > n {
      CutSplits(chain[..|chain| - 1], n);
      assert forall i :: 0 <= i < |chain| - 1 ==> chain[i] == chain[..|chain| - 1][i];
    }
  }

  lemma {:induction false} CutMonotone(chain: seq<Event>, m: nat, n: nat)
    requires Ordered(chain) && m <= n
    ensures Cut(chain, m) <= Cut(chain, n)
  {
    CutSplits(chain, m);
    CutSplits(chain, n);
    if Cut(chain, n) < |chain| {
      assert chain[Cut(chain, n)].ledger > n;
    }
  }

  /** Events in ledgers above `lo` and up to `hi`, in chain order. */
  function Slice(chain: seq<Event>, lo: nat, hi: nat): seq<Event> {
    if Cut(chain, lo) <= Cut(chain, hi) then chain[Cut(chain, lo)..Cut(chain, hi)] else []
  }

  lemma {:induction false} PassAppend<T>(h: Handler<T>, c: Core<T>, a: seq<Event>, b: seq<Event>)
    ensures Pass(h, c, a + b) == Pass(h, Pass(h, c, a), b)
  {
    if b == [] {
      assert a + b == a;
    } else {
      assert (a + b)[..|a + b| - 1] == a + b[..|b| - 1];
      PassAppend(h, c, a, b[..|b| - 1]);
    }
  }

  /** The rows and dedup rows are those of one sequential pass over the chain up to the cursor. */
  ghost predicate Synced<T>(h: Handler<T>, chain: seq<Event>, init: Core<T>, db: Db<T>) {
    db.core == Pass(h, init, chain[..Cut(chain, db.cursor)])
  }

  /** Committing the events up to the next ledger boundary keeps the database in step with the sequential pass. */
  lemma {:induction false} CommitKeepsSynced<T>(h: Handler<T>, chain: seq<Event>, init: Core<T>, db: Db<T>, ledger: nat, evidenceOk: bool)
    requires Ordered(chain) && Synced(h, chain, init, db) && db.cursor <= ledger
    ensures Synced(h, chain, init, Commit(h, db, ledger, Slice(chain, db.cursor, ledger), evidenceOk))
  {
    CutMonotone(chain, db.cursor, ledger);
    var lo, hi := Cut(chain, db.cursor), Cut(chain, ledger);
    assert chain[..hi] == chain[..lo] + chain[lo..hi];
    PassAppend(h, init, chain[..lo], chain[lo..hi]);
  }

  /** A committed transaction: which ledger, and whether its failure evidence was written. */
  datatype Step = Step(ledger: nat, evidenceOk: bool)

  /** All events of one ledger. */
  predicate OneLedger(items: seq<Event>, ledger: nat) {
    forall i :: 0 <= i < |items| ==> items[i].ledger == ledger
  }

  ghost predicate Steps<T>(h: Handler<T>, chain: seq<Event>, before: Db<T>, step: Step, after: Db<T>) {
    && before.cursor <= step.ledger && OneLedger(Slice(chain, before.cursor, step.ledger), step.ledger)
    && after == Commit(h, before, step.ledger, Slice(chain, before.cursor, step.ledger), step.evidenceOk)
  }

  /** A history of durable states: each commit is a step, and every state is in step with the sequential pass. */
  ghost predicate History<T>(h: Handler<T>, chain: seq<Event>, init: Core<T>, log: seq<Db<T>>, steps: seq<Step>) {
    && |log| == |steps| + 1
    && (forall i :: 0 <= i < |steps| ==> Steps(h, chain, log[i], steps[i], log[i + 1]))
    && (forall i :: 0 <= i < |log| ==> Synced(h, chain, init, log[i]))
    && (forall i, j :: 0 <= i < j < |log| ==> log[i].cursor <= log[j].cursor)
  }

  lemma {:induction false} HistoryGrows<T>(h: Handler<T>, chain: seq<Event>, init: Core<T>, log: seq<Db<T>>, steps: seq<Step>,
                                           step: Step, next: Db<T>)
    requires Ordered(chain) && History(h, chain, init, log, steps) && Steps(h, chain, log[|log| - 1], step, next)
    ensures History(h, chain, init, log + [next], steps + [step])
  {
    var n, grown := |log|, log + [next];
    CommitKeepsSynced(h, chain, init, log[n - 1], step.ledger, step.evidenceOk);
    forall i | 0 <= i <= |steps| ensures Steps(h, chain, grown[i], (steps + [step])[i], grown[i + 1]) {
    }
    forall i | 0 <= i < n ensures log[i].cursor <= next.cursor {
      assert log[i].cursor <= log[n - 1].cursor;
    }
  }

  datatype Ingestion = Duplicate | Ingested | HandlerFailed

  datatype Ingestions<T> = Ingestions(core: Core<T>, failed: seq<EventId>, succeeded: seq<EventId>)

  /** What a ledger's transaction answers: how many events were ingested and how many failed. */
  datatype TxResult = Committed(processed: nat, failed: nat) | Aborted

  /** What may go wrong with a ledger: a transient error at an event, the evidence, a crash, the reply to COMMIT. */
  datatype Faults = Faults(transient: nat -> bool, evidenceLost: bool, crashed: bool, replyLost: bool)

  /** The transaction does not reach its COMMIT. */
  ghost predicate Interrupted(f: Faults, events: nat) {
    f.crashed || exists i :: 0 <= i < events && f.transient(i)
  }

  ghost predicate Calm(f: Faults) {
    !f.crashed && !f.replyLost && forall i :: !f.transient(i)
  }

  /** What a poll's ledgers meet, in order: a stop request before one, or faults in one. */
  datatype Conditions = Conditions(stops: nat -> bool, faults: nat -> Faults)

  ghost predicate Undisturbed(c: Conditions) {
    forall k :: !c.stops(k) && Calm(c.faults(k))
  }

  /** Ledger `k` cannot be committed. */
  ghost predicate HeldUp(c: Conditions, k: nat) {
    c.stops(k) || c.faults(k).crashed || exists i :: c.faults(k).transient(i)
  }

  /** Ledger `k` is committed if its events meet no transient error, and the reply says so. */
  ghost predicate Acknowledged(c: Conditions, k: nat) {
    !c.stops(k) && !c.faults(k).crashed && !c.faults(k).replyLost
  }

  ghost predicate AllAcknowledged(c: Conditions, n: nat) {
    n > 0 ==> AllAcknowledged(c, n - 1) && Acknowledged(c, n - 1)
  }

  /** A pass that committed `n` ledgers went on until the first thing that stopped it, or to the end. */
  ghost predicate WentOn(c: Conditions, n: nat, ok: bool) {
    if ok then AllAcknowledged(c, n)
    else
      || (AllAcknowledged(c, n) && HeldUp(c, n))
      || (n > 0 && AllAcknowledged(c, n - 1) && c.faults(n - 1).replyLost && !c.stops(n - 1) && !c.faults(n - 1).crashed)
  }

  lemma {:induction false} UndisturbedGoesOn(c: Conditions, n: nat, ok: bool)
    requires WentOn(c, n, ok) && Undisturbed(c)
    ensures ok
  {
    assert n > 0 ==> Calm(c.faults(n - 1)) && !c.stops(n - 1);
    assert Calm(c.faults(n)) && !c.stops(n);
  }

  datatype PollResult = Polled(end: nat) | PollFailed

  /** What fetching a ledger range gave: the events to ingest, a blown budget, or another error. */
  datatype Fetched = Items(items: seq<Event>) | BudgetExceeded | FetchError

  /** The ledger a poll resumes after: a cursor that was never set stands for the start ledger. */
  function ResumeAfter(cursor: nat, startLedger: nat): nat {
    if cursor == 0 then startLedger else cursor
  }

  function BatchEnd(from: nat, head: nat, ledgers: nat): int {
    if head < from + ledgers - 1 then head else from + ledgers - 1
  }

  /** The next shorter range end after a blown budget. */
  function Halved(last: nat, end: nat): (next: nat)
    requires last < end
    ensures last < next && (last + 1 < end ==> next < end)
    ensures end - last <= 2 * (next - last) + 1 && (last + 1 < end ==> 2 * (next - last) <= end - last)
  {
    last + if (end - last) / 2 < 1 then 1 else (end - last) / 2
  }

  /** The polling indexer.  `log` is the history of durable database states, `steps` the commits between them. */
  class Indexer<T(!new)> {
    const h: Handler<T>
    const startLedger: nat
    const maxLedgers: nat
    ghost const chain: seq<Event>
    ghost const init: Core<T>
    var db: Db<T>
    ghost var log: seq<Db<T>>
    ghost var steps: seq<Step>

    /** Every durable state so far agrees with the sequential pass, and the cursor never went back. */
    ghost predicate Valid()
      reads this
    {
      && maxLedgers >= 1 && Ordered(chain)
      && (forall i :: 0 <= i < |chain| ==> chain[i].ledger > startLedger)
      && History(h, chain, init, log, steps)
      && log[|log| - 1] == db && log[0] == Db(init, map[], 0, map[])
    }

    constructor (h: Handler<T>, rows: T, startLedger: nat, maxLedgers: nat, ghost chain: seq<Event>)
      requires maxLedgers >= 1 && Ordered(chain)
      requires forall i :: 0 <= i < |chain| ==> chain[i].ledger > startLedger
      ensures Valid() && this.h == h && this.chain == chain && this.init == Core(rows, {})
      ensures this.startLedger == startLedger && this.maxLedgers == maxLedgers
      ensures db == Db(Core(rows, {}), map[], 0, map[])
    {
      this.h, this.startLedger, this.maxLedgers := h, startLedger, maxLedgers;
      this.chain, this.init := chain, Core(rows, {});
      db := Db(Core(rows, {}), map[], 0, map[]);
      log, steps := [Db(Core(rows, {}), map[], 0, map[])], [];
      CutSplits(chain, 0);
    }

    /**
     * One ledger, one transaction: the database is exactly as before if the transaction was interrupted, and
     * exactly as after the commit otherwise.  An error does not rule out the latter, as the reply can be lost.
     */
    method ProcessLedger(ledger: nat, items: seq<Event>, f: Faults) returns (r: TxResult)
      requires Valid() && db.cursor <= ledger && items == Slice(chain, db.cursor, ledger) && OneLedger(items, ledger)
      modifies this`db, this`log, this`steps
      ensures Valid() && old(log) <= log && old(steps) <= steps
      ensures db == if Interrupted(f, |items|) then old(db) else Commit(h, old(db), ledger, items, !f.evidenceLost)
      ensures |steps| == |old(steps)| + if Interrupted(f, |items|) then 0 else 1
      ensures r == if Interrupted(f, |items|) || f.replyLost then Aborted
                   else Committed(|SucceededIn(h, old(db.core), items)|, |FailedIn(h, old(db.core), items)|)
    {
      var ingested := IngestItems(h, db.core, items, f.transient);
      if ingested.None? {
        return Aborted;
      }
      var Ingestions(core, failed, succeeded) := ingested.value;
      var failures := RecordEvidence(db.failures, failed, succeeded, !f.evidenceLost);
      var next := Db(core, failures, ledger, db.checkpoints[ledger := Checkpoint(|succeeded|, |failed|)]);
      if f.crashed {
        return Aborted;
      }
      Persist(next, ledger, !f.evidenceLost);
      return if f.replyLost then Aborted else Committed(|succeeded|, |failed|);
    }

    /** COMMIT. */
    method Persist(next: Db<T>, ghost ledger: nat, ghost evidenceOk: bool)
      requires Valid() && Steps(h, chain, db, Step(ledger, evidenceOk), next)
      modifies this`db, this`log, this`steps
      ensures Valid() && old(log) <= log && old(steps) <= steps && db == next && |steps| == |old(steps)| + 1
    {
      HistoryGrows(h, chain, init, log, steps, Step(ledger, evidenceOk), next);
      db := next;
      log, steps := log + [next], steps + [Step(ledger, evidenceOk)];
    }

    /** Every event of the ledger in its savepoint, until a transient error aborts the transaction. */
    static method IngestItems(h: Handler<T>, before: Core<T>, items: seq<Event>, transient: nat -> bool)
      returns (r: Option<Ingestions<T>>)
      ensures r.None? <==> exists i :: 0 <= i < |items| && transient(i)
      ensures r.Some? ==>
        r.value == Ingestions(Pass(h, before, items), FailedIn(h, before, items), SucceededIn(h, before, items))
    {
      var core := before;
      var failed: seq<EventId>, succeeded: seq<EventId> := [], [];
      for i := 0 to |items|
        invariant core == Pass(h, before, items[..i])
        invariant failed == FailedIn(h, before, items[..i])
        invariant succeeded == SucceededIn(h, before, items[..i])
        invariant forall k :: 0 <= k < i ==> !transient(k)
      {
        if transient(i) {
          return None;
        }
        assert items[..i + 1][..i] == items[..i];
        var ingestion;
        core, ingestion := IngestEvent(h, core, items[i]);
        if ingestion.Ingested? {
          succeeded := succeeded + [IdOf(items[i])];
        } else if ingestion.HandlerFailed? {
          failed := failed + [IdOf(items[i])];
        }
      }
      assert items[..|items|] == items;
      return Some(Ingestions(core, failed, succeeded));
    }

    /** One event: the dedup row first, then the handler; a failing handler rolls back to the savepoint. */
    static method IngestEvent(h: Handler<T>, core: Core<T>, e: Event) returns (next: Core<T>, r: Ingestion)
      ensures next == One(h, core, e)
      ensures r.Ingested? <==> Succeeds(h, core, e)
      ensures r.HandlerFailed? <==> Fails(h, core, e)
    {
      if Seen(core.ingested, IdentityOf(e)) {
        return core, Duplicate;
      }
      var savepoint := core;
      next := Core(core.rows, core.ingested + {IdentityOf(e)});
      match h(next.rows, e) {
        case Done(rows) =>
          return Core(rows, next.ingested), Ingested;
        case Failed(_) =>
          return savepoint, HandlerFailed;
      }
    }

    /** Upserts one row per failure, then resolves the rows of events that now ingested; all or nothing. */
    static method RecordEvidence(before: map<EventId, Failure>, failed: seq<EventId>, succeeded: seq<EventId>, ok: bool)
      returns (failures: map<EventId, Failure>)
      ensures failures == if ok then Resolve(UpsertAll(before, failed), succeeded) else before
    {
      failures := before;
      for i := 0 to |failed|
        invariant failures == UpsertAll(before, failed[..i])
      {
        assert failed[..i + 1][..i] == failed[..i];
        failures := Upsert(failures, failed[i]);
      }
      assert failed[..|failed|] == failed;
      failures := Resolve(failures, succeeded);
      if !ok {
        failures := before;
      }
    }

    /** The transaction of the pass's ledger number `k`. */
    method CommitNext(ledger: nat, items: seq<Event>, c: Conditions, k: nat) returns (ok: bool)
      requires Valid() && db.cursor <= ledger && items == Slice(chain, db.cursor, ledger) && OneLedger(items, ledger)
      requires !c.stops(k)
      modifies this`db, this`log, this`steps
      ensures Valid() && old(log) <= log && old(steps) <= steps
      ensures if |steps| == |old(steps)| then db == old(db) && HeldUp(c, k)
              else |steps| == |old(steps)| + 1 && db.cursor == ledger && !c.faults(k).crashed
      ensures ok <==> |steps| > |old(steps)| && !c.faults(k).replyLost
    {
      var r := ProcessLedger(ledger, items, c.faults(k));
      return r.Committed?;
    }

    /** The leading events of one ledger, if `rest` is what the pass has still to ingest. */
    method CommitFirst(to: nat, rest: seq<Event>, c: Conditions, k: nat) returns (ok: bool, left: seq<Event>)
      requires Valid() && db.cursor <= to && rest == Slice(chain, db.cursor, to) && rest != []
      requires !c.stops(k)
      modifies this`db, this`log, this`steps
      ensures Valid() && old(log) <= log && old(steps) <= steps
      ensures if |steps| == |old(steps)| then db == old(db) && HeldUp(c, k)
              else |steps| == |old(steps)| + 1 && old(db.cursor) <= db.cursor <= to && startLedger < db.cursor && !c.faults(k).crashed
      ensures ok <==> |steps| > |old(steps)| && !c.faults(k).replyLost
      ensures ok ==> left == Slice(chain, db.cursor, to) && |left| < |rest|
    {
      var size := GroupLength(rest);
      CutMonotone(chain, db.cursor, to);
      SliceGroup(chain, db.cursor, to, size);
      left := rest[size..];
      ok := CommitNext(rest[0].ledger, rest[..size], c, k);
    }

    /** The trailing empty ledgers, unless a stop is requested or there are none. */
    method CommitTail(to: nat, c: Conditions, k: nat) returns (ok: bool)
      requires Valid() && db.cursor <= to && Slice(chain, db.cursor, to) == []
      modifies this`db, this`log, this`steps
      ensures Valid() && old(log) <= log && old(steps) <= steps
      ensures if |steps| == |old(steps)| then db == old(db) && (ok || HeldUp(c, k))
              else |steps| == |old(steps)| + 1 && db.cursor == to && !c.stops(k) && !c.faults(k).crashed
      ensures ok <==> !c.stops(k) && db.cursor == to && (|steps| > |old(steps)| ==> !c.faults(k).replyLost)
    {
      if c.stops(k) {
        return false;
      }
      if db.cursor < to {
        ok := CommitNext(to, [], c, k);
        return;
      }
      return true;
    }

    /**
     * Ingest a fetched range ledger by ledger, then move the cursor over trailing empty ledgers.  Success
     * leaves the cursor at `to`; any interruption leaves it at a ledger boundary in between.  The first stop
     * request or fault ends the pass, and nothing else does.
     */
    method ProcessItems(to: nat, items: seq<Event>, c: Conditions) returns (ok: bool)
      requires Valid() && db.cursor <= to && items == Slice(chain, db.cursor, to)
      modifies this`db, this`log, this`steps
      ensures Valid() && old(log) <= log && old(steps) <= steps
      ensures old(db.cursor) <= db.cursor <= to
      ensures startLedger < to ==> db.cursor == old(db.cursor) || startLedger < db.cursor
      ensures ok ==> db.cursor == to
      ensures WentOn(c, |steps| - |old(steps)|, ok)
      ensures c.stops(0) ==> !ok && db == old(db)
    {
      var rest, n := items, 0;
      while rest != []
        invariant Valid() && old(log) <= log && old(steps) <= steps && old(db.cursor) <= db.cursor <= to
        invariant rest == Slice(chain, db.cursor, to)
        invariant db.cursor == old(db.cursor) || startLedger < db.cursor
        invariant n == 0 ==> db == old(db)
        invariant n > 0 ==> !c.stops(0)
        invariant |steps| == |old(steps)| + n && AllAcknowledged(c, n)
        decreases |rest|
      {
        if c.stops(n) {
          return false;
        }
        var committed;
        committed, rest := CommitFirst(to, rest, c, n);
        if !committed {
          return false;
        }
        n := n + 1;
      }
      ok := CommitTail(to, c, n);
    }

    /** Ingest what was fetched above the ledger a poll resumes after. */
    method ProcessFetched(last: nat, end: nat, items: seq<Event>, c: Conditions) returns (ok: bool)
      requires Valid() && last == ResumeAfter(db.cursor, startLedger) && last < end && items == Slice(chain, last, end)
      modifies this`db, this`log, this`steps
      ensures Valid() && old(log) <= log && old(steps) <= steps
      ensures old(db.cursor) <= db.cursor <= end && last <= ResumeAfter(db.cursor, startLedger)
      ensures ok ==> db.cursor == end
      ensures WentOn(c, |steps| - |old(steps)|, ok)
      ensures Undisturbed(c) ==> ok
    {
      StartCut(chain, startLedger, db.cursor);
      assert items == Slice(chain, db.cursor, end);
      ok := ProcessItems(end, items, c);
      if Undisturbed(c) {
        UndisturbedGoesOn(c, |steps| - |old(steps)|, ok);
      }
    }

    /** How many leading events share the first event's ledger. */
    static method GroupLength(items: seq<Event>) returns (n: nat)
      requires items != []
      ensures 0 < n <= |items|
      ensures forall k :: 0 <= k < n ==> items[k].ledger == items[0].ledger
      ensures n < |items| ==> items[n].ledger != items[0].ledger
    {
      n := 1;
      while n < |items| && items[n].ledger == items[0].ledger
        invariant 0 < n <= |items|
        invariant forall k :: 0 <= k < n ==> items[k].ledger == items[0].ledger
      {
        n := n + 1;
      }
    }

    /**
     * One poll: read the durable cursor, pick the range, and halve it while the fetch blows its budget.
     * Nothing is committed before a fetch succeeds, the range never becomes empty, and success leaves
     * the cursor exactly at the end of the range that was finally processed.
     */
    method RunPollCycle(head: nat, fetch: (nat, nat) -> Fetched, c: Conditions) returns (r: PollResult)
      requires Valid()
      requires forall lo, hi :: fetch(lo, hi).Items? ==> fetch(lo, hi).items == Slice(chain, lo, hi)
      modifies this`db, this`log, this`steps
      ensures Valid() && old(log) <= log && old(steps) <= steps && old(db.cursor) <= db.cursor
      ensures ResumeAfter(old(db.cursor), startLedger) <= ResumeAfter(db.cursor, startLedger)
      ensures var last := ResumeAfter(old(db.cursor), startLedger);
              var to := BatchEnd(last + 1, head, maxLedgers);
              && (r.Polled? && last < to ==>
                    && db.cursor == r.end && last < r.end <= to && fetch(last, r.end).Items?
                    && (r.end < to ==> HalvesBlocked(fetch, last, r.end, to)))
              && (last >= to ==> db == old(db) && r == if last > 0 && to < last then PollFailed else Polled(last))
              && (last < to && !fetch(last, to).BudgetExceeded? && r.Polled? ==> r.end == to)
              && ((forall hi :: !fetch(last, hi).Items?) ==> db == old(db))
              && (last < to && Undisturbed(c) && Fetchable(fetch, last, to) ==> r.Polled?)
    {
      var last := ResumeAfter(db.cursor, startLedger);
      var to := BatchEnd(last + 1, head, maxLedgers);
      if last > 0 && to < last {
        return PollFailed;
      }
      if to <= last {
        return Polled(last);
      }
      var end: nat := to;
      while true
        invariant last < end <= to && Valid() && db == old(db) && log == old(log) && steps == old(steps)
        invariant !fetch(last, to).BudgetExceeded? ==> end == to
        invariant end < to ==> HalvesBlocked(fetch, last, end, to)
        decreases end - last
      {
        match fetch(last, end) {
          case Items(items) =>
            var ok := ProcessFetched(last, end, items, c);
            return if ok then Polled(end) else PollFailed;
          case BudgetExceeded =>
            if end <= last + 1 {
              return PollFailed;
            }
            end := Halved(last, end);
          case FetchError =>
            return PollFailed;
        }
      }
    }
  }

  /** The range is no shorter than half of one whose fetch blew its budget. */
  ghost predicate HalvesBlocked(fetch: (nat, nat) -> Fetched, last: nat, end: nat, to: nat)
    requires last < end
  {
    exists blocked :: end < blocked <= to && fetch(last, blocked).BudgetExceeded? && blocked - last <= 2 * (end - last) + 1
  }

  /** No fetch of the range or a shorter one fails but for its budget, and the first ledger fits. */
  ghost predicate Fetchable(fetch: (nat, nat) -> Fetched, last: nat, to: nat) {
    (forall hi :: last < hi <= to ==> !fetch(last, hi).FetchError?) && !fetch(last, last + 1).BudgetExceeded?
  }

  /** The maximal run of one ledger's events at the front of what is left is that ledger's slice. */
  lemma {:induction false} LedgerGroup(chain: seq<Event>, cursor: nat, to: nat, lo: nat, hi: nat)
    requires Ordered(chain) && cursor <= to && lo == Cut(chain, cursor)
    requires lo < hi <= Cut(chain, to)
    requires forall k :: lo <= k < hi ==> chain[k].ledger == chain[lo].ledger
    requires hi < Cut(chain, to) ==> chain[hi].ledger != chain[lo].ledger
    ensures var ledger := chain[lo].ledger;
            && cursor <= ledger <= to
            && Cut(chain, ledger) == hi
            && chain[lo..hi] == Slice(chain, cursor, ledger)
  {
    var ledger := chain[lo].ledger;
    CutSplits(chain, cursor);
    CutSplits(chain, to);
    CutSplits(chain, ledger);
    assert chain[hi - 1].ledger == ledger;
    assert hi - 1 < Cut(chain, ledger);
    if hi < |chain| {
      assert chain[hi].ledger > ledger;
    }
  }

  lemma {:induction false} SliceParts(chain: seq<Event>, lo: nat, hi: nat, n: nat)
    requires lo + n <= hi <= |chain|
    ensures chain[lo..hi][..n] == chain[lo..lo + n] && chain[lo..hi][n..] == chain[lo + n..hi]
  {
  }

  /** Splitting off the first ledger's events leaves the slice above that ledger. */
  lemma {:induction false} SliceGroup(chain: seq<Event>, cursor: nat, to: nat, n: nat)
    requires Ordered(chain) && cursor <= to
    requires var items := Slice(chain, cursor, to);
             && 0 < n <= |items|
             && (forall k :: 0 <= k < n ==> items[k].ledger == items[0].ledger)
             && (n < |items| ==> items[n].ledger != items[0].ledger)
    ensures var items := Slice(chain, cursor, to);
            && cursor <= items[0].ledger <= to
            && items[..n] == Slice(chain, cursor, items[0].ledger)
            && items[n..] == Slice(chain, items[0].ledger, to)
  {
    CutMonotone(chain, cursor, to);
    var items, lo, hi := Slice(chain, cursor, to), Cut(chain, cursor), Cut(chain, to);
    assert items == chain[lo..hi];
    forall k | lo <= k < lo + n ensures chain[k].ledger == chain[lo].ledger {
      assert chain[k] == items[k - lo];
    }
    assert lo + n < hi ==> chain[lo + n] == items[n];
    LedgerGroup(chain, cursor, to, lo, lo + n);
    SliceParts(chain, lo, hi, n);
  }

  lemma {:induction false} NoneUpTo(chain: seq<Event>, n: nat)
    requires forall i :: 0 <= i < |chain| ==> chain[i].ledger > n
    ensures Cut(chain, n) == 0
  {
    if chain != [] {
      NoneUpTo(chain[..|chain| - 1], n);
    }
  }

  /** No event to ingest lies at or below the start ledger. */
  lemma {:induction false} StartCut(chain: seq<Event>, startLedger: nat, cursor: nat)
    requires forall i :: 0 <= i < |chain| ==> chain[i].ledger > startLedger
    ensures cursor == 0 ==> Cut(chain, startLedger) == Cut(chain, cursor)
  {
    NoneUpTo(chain, startLedger);
    NoneUpTo(chain, 0);
  }
}
