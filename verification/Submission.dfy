/**
 * Submitting one signed transaction over an unreliable network, and deciding what became of it.
 *
 * What the network really did is a `World`: the whole chain (past and future), which send attempts were
 * queued, and which prefix of the chain each status lookup was answered from.  A client only sees replies.
 */
module Submission {
  import opened Prelude

  type Hash = nat

  datatype SendStatus = Pending | Duplicate | Error | TryAgainLater

  datatype Send = Answered(status: SendStatus, latest: Option<nat>) | SendFailed(mayHaveReached: bool, transient: bool)

  datatype Poll =
    | PollFailed
    | Success(ledger: nat)
    | Failure(ledger: nat)
    | NotFound(latest: Option<nat>, closeTime: Option<nat>)

  datatype Lookup = NotAttempted | LookupFailed | LookupNotFound

  datatype Verdict =
    | InvalidArgument | AccountNotFound | SimulationFailed | Unknown
    | NetworkError | TxRejected | TryAgain | TxExpired
    | Confirmed(ledger: nat) | TxFailed
    | Timeout | StaleRpc | OutcomeUnknown(accepted: bool, sendAttempts: nat, lookup: Lookup)

  /** The codes `isRetryable` calls safe to resubmit. */
  predicate Retryable(v: Verdict) {
    v.NetworkError? || v.TryAgain? || v.TxRejected? || v.TxExpired?
  }

  /** Failures before anything was sent that a resubmission would only repeat. */
  predicate Early(v: Verdict) {
    v.InvalidArgument? || v.AccountNotFound? || v.SimulationFailed? || v.Unknown?
  }

  predicate Included(v: Verdict) {
    v.Confirmed? || v.TxFailed?
  }

  predicate Open(v: Verdict) {
    v.Timeout? || v.StaleRpc? || v.OutcomeUnknown?
  }

  // ----- What the network may do -----

  datatype Ledger = Ledger(closeTime: nat, txs: map<Hash, bool>)

  datatype World = World(chain: seq<Ledger>, queued: seq<bool>, views: seq<nat>)

  /** Everything a client has seen of one envelope. */
  datatype Seen = Seen(sends: seq<Send>, polls: seq<Poll>)

  ghost predicate OnChain(chain: seq<Ledger>, hash: Hash) {
    exists i :: 0 <= i < |chain| && hash in chain[i].txs
  }

  /** A failure that proves the request never arrived, or a refusal, is not queued; anything else may be. */
  predicate MayBeQueued(s: Send) {
    match s
    case Answered(status, _) => status.Pending? || status.Duplicate?
    case SendFailed(mayHaveReached, _) => mayHaveReached
  }

  /** Close times never decrease, and a hash is included at most once and only within its time bound. */
  ghost predicate Lawful(chain: seq<Ledger>, hash: Hash, validUntil: Option<nat>) {
    && (forall i, j :: 0 <= i < j < |chain| ==> chain[i].closeTime <= chain[j].closeTime)
    && (forall i, j :: 0 <= i < j < |chain| ==> !(hash in chain[i].txs && hash in chain[j].txs))
    && (validUntil.Some? ==> forall i :: 0 <= i < |chain| && hash in chain[i].txs ==> chain[i].closeTime <= validUntil.value)
  }

  /** A lookup is answered from the first `view` ledgers of the chain. */
  ghost predicate Reflected(p: Poll, chain: seq<Ledger>, view: nat, hash: Hash) {
    && view <= |chain|
    && match p
       case PollFailed => true
       case Success(ledger) => 0 < ledger <= view && hash in chain[ledger - 1].txs && chain[ledger - 1].txs[hash]
       case Failure(ledger) => 0 < ledger <= view && hash in chain[ledger - 1].txs && !chain[ledger - 1].txs[hash]
       case NotFound(latest, closeTime) =>
         && !OnChain(chain[..view], hash)
         && (latest.Some? ==> latest.value == view)
         && (closeTime.Some? ==> view > 0 && closeTime.value == chain[view - 1].closeTime)
  }

  /** The network assumptions: this world explains what was seen. */
  ghost predicate Explains(w: World, seen: Seen, hash: Hash, validUntil: Option<nat>) {
    && Lawful(w.chain, hash, validUntil)
    && |w.queued| == |seen.sends|
    && (forall k :: 0 <= k < |seen.sends| && w.queued[k] ==> MayBeQueued(seen.sends[k]))
    && (OnChain(w.chain, hash) ==> true in w.queued)
    && |w.views| == |seen.polls|
    && (forall k :: 0 <= k < |seen.polls| ==> Reflected(seen.polls[k], w.chain, w.views[k], hash))
  }

  // ----- What the replies prove -----

  predicate Past(p: Poll, validUntil: Option<nat>) {
    p.NotFound? && p.closeTime.Some? && validUntil.Some? && p.closeTime.value > validUntil.value
  }

  ghost predicate AnyPast(polls: seq<Poll>, validUntil: Option<nat>) {
    polls != [] && (Past(polls[|polls| - 1], validUntil) || AnyPast(polls[..|polls| - 1], validUntil))
  }

  ghost predicate AnySettled(polls: seq<Poll>) {
    polls != [] && (polls[|polls| - 1].Success? || polls[|polls| - 1].Failure? || AnySettled(polls[..|polls| - 1]))
  }

  lemma {:induction false} PastSomewhere(polls: seq<Poll>, validUntil: Option<nat>)
    ensures AnyPast(polls, validUntil) <==> exists k :: 0 <= k < |polls| && Past(polls[k], validUntil)
  {
    if polls != [] {
      PastSomewhere(polls[..|polls| - 1], validUntil);
    }
  }

  lemma {:induction false} SettledSomewhere(polls: seq<Poll>)
    ensures AnySettled(polls) <==> exists k :: 0 <= k < |polls| && (polls[k].Success? || polls[k].Failure?)
  {
    if polls != [] {
      SettledSomewhere(polls[..|polls| - 1]);
    }
  }

  /** Some attempt may have been queued. */
  ghost predicate MaybeDelivered(sends: seq<Send>) {
    exists k :: 0 <= k < |sends| && MayBeQueued(sends[k])
  }

  /** No attempt can have been queued, or a lookup past the time bound did not find the hash. */
  ghost predicate Excluded(seen: Seen, validUntil: Option<nat>) {
    !MaybeDelivered(seen.sends) || AnyPast(seen.polls, validUntil)
  }

  ghost predicate Settled(seen: Seen) {
    AnySettled(seen.polls)
  }

  lemma {:induction false} ExcludedNeverApplied(w: World, seen: Seen, hash: Hash, validUntil: Option<nat>)
    requires Explains(w, seen, hash, validUntil) && Excluded(seen, validUntil)
    ensures !OnChain(w.chain, hash)
  {
    PastSomewhere(seen.polls, validUntil);
    if AnyPast(seen.polls, validUntil) {
      var k :| 0 <= k < |seen.polls| && Past(seen.polls[k], validUntil);
      var view := w.views[k];
      assert Reflected(seen.polls[k], w.chain, view, hash);
      forall i | 0 <= i < |w.chain| ensures hash !in w.chain[i].txs {
        if i < view {
          assert w.chain[i] == w.chain[..view][i];
        } else {
          assert w.chain[view - 1].closeTime <= w.chain[i].closeTime;
        }
      }
    }
  }

  lemma {:induction false} SettledIsApplied(w: World, seen: Seen, hash: Hash, validUntil: Option<nat>, k: nat)
    requires Explains(w, seen, hash, validUntil) && k < |seen.polls|
    requires seen.polls[k].Success? || seen.polls[k].Failure?
    ensures var l := seen.polls[k].ledger;
            && 0 < l <= |w.chain| && hash in w.chain[l - 1].txs && w.chain[l - 1].txs[hash] == seen.polls[k].Success?
            && OnChain(w.chain, hash)
  {
    assert Reflected(seen.polls[k], w.chain, w.views[k], hash);
  }

  // ----- Where the replies leave the outcome open, both outcomes are possible -----

  function Without(chain: seq<Ledger>, hash: Hash): (r: seq<Ledger>)
    ensures |r| == |chain|
    ensures forall i :: 0 <= i < |chain| ==> r[i] == Ledger(chain[i].closeTime, chain[i].txs - {hash})
  {
    if chain == [] then []
    else
      var last := chain[|chain| - 1];
      Without(chain[..|chain| - 1], hash) + [Ledger(last.closeTime, last.txs - {hash})]
  }

  function Capped(chain: seq<Ledger>, bound: nat): (r: seq<Ledger>)
    ensures |r| == |chain|
    ensures forall i :: 0 <= i < |chain| ==>
      r[i] == Ledger(if chain[i].closeTime < bound then chain[i].closeTime else bound, chain[i].txs)
  {
    if chain == [] then []
    else
      var last := chain[|chain| - 1];
      Capped(chain[..|chain| - 1], bound)
      + [Ledger(if last.closeTime < bound then last.closeTime else bound, last.txs)]
  }

  /** The time bound, or a time no earlier than anything on the chain. */
  function LastChance(chain: seq<Ledger>, validUntil: Option<nat>): nat {
    if validUntil.Some? then validUntil.value else if chain == [] then 0 else chain[|chain| - 1].closeTime
  }

  function WithInclusion(chain: seq<Ledger>, hash: Hash, validUntil: Option<nat>): seq<Ledger> {
    var bound := LastChance(chain, validUntil);
    Capped(chain, bound) + [Ledger(bound, map[hash := true])]
  }

  lemma {:induction false} NeverAppliedPossible(w: World, seen: Seen, hash: Hash, validUntil: Option<nat>)
    requires Explains(w, seen, hash, validUntil) && !Settled(seen)
    ensures var u := World(Without(w.chain, hash), w.queued, w.views);
            Explains(u, seen, hash, validUntil) && !OnChain(u.chain, hash)
  {
    SettledSomewhere(seen.polls);
    var u := Without(w.chain, hash);
    forall k | 0 <= k < |seen.polls| ensures Reflected(seen.polls[k], u, w.views[k], hash) {
      assert Reflected(seen.polls[k], w.chain, w.views[k], hash);
    }
  }

  lemma {:induction false} InclusionLawful(chain: seq<Ledger>, hash: Hash, validUntil: Option<nat>)
    requires Lawful(chain, hash, validUntil) && !OnChain(chain, hash)
    ensures Lawful(WithInclusion(chain, hash, validUntil), hash, validUntil)
    ensures OnChain(WithInclusion(chain, hash, validUntil), hash)
  {
    var u := WithInclusion(chain, hash, validUntil);
    assert hash in u[|chain|].txs;
    forall i | 0 <= i < |chain| ensures hash !in u[i].txs {
    }
  }

  lemma {:induction false} InclusionReflected(p: Poll, chain: seq<Ledger>, view: nat, hash: Hash, validUntil: Option<nat>)
    requires Lawful(chain, hash, validUntil) && Reflected(p, chain, view, hash)
    requires !p.Success? && !p.Failure? && !Past(p, validUntil)
    ensures Reflected(p, WithInclusion(chain, hash, validUntil), view, hash)
  {
    var u := WithInclusion(chain, hash, validUntil);
    if p.NotFound? {
      forall i | 0 <= i < view ensures hash !in u[..view][i].txs {
        assert chain[..view][i] == chain[i];
      }
    }
  }

  lemma {:induction false} AppliedPossible(w: World, seen: Seen, hash: Hash, validUntil: Option<nat>) returns (u: World)
    requires Explains(w, seen, hash, validUntil) && !Settled(seen) && !Excluded(seen, validUntil)
    ensures Explains(u, seen, hash, validUntil) && OnChain(u.chain, hash)
  {
    PastSomewhere(seen.polls, validUntil);
    SettledSomewhere(seen.polls);
    if OnChain(w.chain, hash) {
      return w;
    }
    var k :| 0 <= k < |seen.sends| && MayBeQueued(seen.sends[k]);
    var queued := w.queued[k := true];
    assert queued[k];
    InclusionLawful(w.chain, hash, validUntil);
    forall k | 0 <= k < |seen.polls|
      ensures Reflected(seen.polls[k], WithInclusion(w.chain, hash, validUntil), w.views[k], hash)
    {
      InclusionReflected(seen.polls[k], w.chain, w.views[k], hash, validUntil);
    }
    u := World(WithInclusion(w.chain, hash, validUntil), queued, w.views);
  }

  // ----- The protocol -----

  const SEND_MAX_ATTEMPTS := 3
  const STALE_LEDGER_POLLS := 3

  datatype SendOutcome = Response(status: SendStatus, latest: Option<nat>, priorAmbiguous: bool) | Ambiguous | NotSubmitted

  /** Send one envelope, resending it after a transient failure; `sends(k)` is what attempt `k` meets. */
  method SubmitEnvelope(sends: nat -> Send) returns (o: SendOutcome, seen: seq<Send>)
    ensures 1 <= |seen| <= 3 && forall k :: 0 <= k < |seen| ==> seen[k] == sends(k)
    ensures forall k :: 0 <= k < |seen| - 1 ==> seen[k].SendFailed? && seen[k].transient
    ensures var last := seen[|seen| - 1];
            match o
            case Response(status, latest, prior) =>
              last == Answered(status, latest) && (prior <==> MaybeDelivered(seen[..|seen| - 1]))
            case Ambiguous => last.SendFailed? && MaybeDelivered(seen)
            case NotSubmitted => last.SendFailed? && !MaybeDelivered(seen)
    ensures !o.Response? ==> !seen[|seen| - 1].transient || |seen| == 3
  {
    var priorAmbiguous := false;
    seen := [];
    while true
      invariant |seen| < SEND_MAX_ATTEMPTS
      invariant forall k :: 0 <= k < |seen| ==> seen[k] == sends(k) && seen[k].SendFailed? && seen[k].transient
      invariant priorAmbiguous <==> MaybeDelivered(seen)
      decreases SEND_MAX_ATTEMPTS - |seen|
    {
      var before := seen;
      var reply := sends(|seen|);
      seen := seen + [reply];
      assert seen[..|seen| - 1] == before && seen[|seen| - 1] == reply;
      match reply {
        case Answered(status, latest) =>
          return Response(status, latest, priorAmbiguous), seen;
        case SendFailed(mayHaveReached, transient) =>
          DeliveredGrows(before, reply);
          priorAmbiguous := priorAmbiguous || mayHaveReached;
          if !transient || |seen| >= SEND_MAX_ATTEMPTS {
            return if priorAmbiguous then Ambiguous else NotSubmitted, seen;
          }
      }
    }
  }

  lemma {:induction false} DeliveredGrows(sends: seq<Send>, s: Send)
    ensures MaybeDelivered(sends + [s]) <==> MaybeDelivered(sends) || MayBeQueued(s)
  {
    if k :| 0 <= k < |sends| && MayBeQueued(sends[k]) {
      assert MayBeQueued((sends + [s])[k]);
    }
    if MayBeQueued(s) {
      assert MayBeQueued((sends + [s])[|sends|]);
    }
  }

  /** How many of the latest lookups failed in a row. */
  function ErrorStreak(polls: seq<Poll>): nat {
    if polls == [] || !polls[|polls| - 1].PollFailed? then 0 else ErrorStreak(polls[..|polls| - 1]) + 1
  }

  /** The ledger reported last, if any reply or lookup reported one. */
  function LastLedger(initial: Option<nat>, polls: seq<Poll>): Option<nat> {
    if polls == [] then initial
    else
      var last := polls[|polls| - 1];
      if last.NotFound? && last.latest.Some? then last.latest else LastLedger(initial, polls[..|polls| - 1])
  }

  /** How many lookups have reported that same ledger again since it was first reported. */
  function LedgerStreak(initial: Option<nat>, polls: seq<Poll>): nat {
    if polls == [] then 0
    else
      var init, last := polls[..|polls| - 1], polls[|polls| - 1];
      if !last.NotFound? || last.latest.None? then LedgerStreak(initial, init)
      else if last.latest == LastLedger(initial, init) then LedgerStreak(initial, init) + 1
      else 0
  }

  /** What the lookups amounted to: at least one answered, all failed, or none was made. */
  function LookupOf(polls: seq<Poll>): Lookup {
    if polls == [] then NotAttempted
    else if polls[|polls| - 1].NotFound? then LookupNotFound
    else if LookupOf(polls[..|polls| - 1]).LookupNotFound? then LookupNotFound
    else LookupFailed
  }

  lemma {:induction false} PollsGrow(polls: seq<Poll>, p: Poll, validUntil: Option<nat>)
    ensures AnyPast(polls + [p], validUntil) <==> AnyPast(polls, validUntil) || Past(p, validUntil)
    ensures AnySettled(polls + [p]) <==> AnySettled(polls) || p.Success? || p.Failure?
  {
    assert (polls + [p])[..|polls|] == polls;
  }

  /** The streak is as long as the run of failed lookups at the end. */
  lemma {:induction false} ErrorStreakExactly(polls: seq<Poll>, n: nat)
    ensures ErrorStreak(polls) >= n <==> n <= |polls| && forall k :: |polls| - n <= k < |polls| ==> polls[k].PollFailed?
  {
    if n > 0 && polls != [] {
      var m := |polls| - 1;
      ErrorStreakExactly(polls[..m], n - 1);
    }
  }

  /** The ledgers reported so far. */
  function Reports(initial: Option<nat>, polls: seq<Poll>): seq<nat> {
    if polls == [] then if initial.Some? then [initial.value] else []
    else
      var init, last := polls[..|polls| - 1], polls[|polls| - 1];
      Reports(initial, init) + if last.NotFound? && last.latest.Some? then [last.latest.value] else []
  }

  lemma {:induction false} LastReport(initial: Option<nat>, polls: seq<Poll>)
    ensures var reports := Reports(initial, polls);
            LastLedger(initial, polls) == if reports == [] then None else Some(reports[|reports| - 1])
  {
    if polls != [] {
      LastReport(initial, polls[..|polls| - 1]);
    }
  }

  /** The last `n` reports repeat the one before them. */
  ghost predicate Repeats(reports: seq<nat>, n: nat) {
    n < |reports| && forall i :: |reports| - n - 1 <= i < |reports| ==> reports[i] == reports[|reports| - 1]
  }

  lemma {:induction false} RepeatsGrow(s: seq<nat>, x: nat, n: nat)
    requires n > 0
    ensures Repeats(s + [x], n) <==> s != [] && s[|s| - 1] == x && Repeats(s, n - 1)
  {
    var t := s + [x];
    if Repeats(t, n) {
      assert t[|s| - 1] == t[|s|];
      forall i | |s| - n <= i < |s| ensures s[i] == s[|s| - 1] {
        assert t[i] == s[i];
      }
    }
  }

  /** The ledger streak is as long as the run of reports at the end that repeat one ledger. */
  lemma {:induction false} LedgerStreakExactly(initial: Option<nat>, polls: seq<Poll>, n: nat)
    requires n > 0
    ensures LedgerStreak(initial, polls) >= n <==> Repeats(Reports(initial, polls), n)
  {
    if polls != [] {
      var init, last := polls[..|polls| - 1], polls[|polls| - 1];
      if last.NotFound? && last.latest.Some? {
        if n > 1 {
          LedgerStreakExactly(initial, init, n - 1);
        }
        LastReport(initial, init);
        RepeatsGrow(Reports(initial, init), last.latest.value, n);
      } else {
        LedgerStreakExactly(initial, init, n);
        assert Reports(initial, polls) == Reports(initial, init);
      }
    }
  }

  /** The lookup summary says whether any lookup was made, and whether one was answered. */
  lemma {:induction false} LookupOfExactly(polls: seq<Poll>)
    ensures LookupOf(polls).NotAttempted? <==> polls == []
    ensures LookupOf(polls).LookupNotFound? <==> exists k :: 0 <= k < |polls| && polls[k].NotFound?
  {
    if polls != [] {
      LookupOfExactly(polls[..|polls| - 1]);
    }
  }

  ghost predicate Follows(seen: seq<Poll>, polls: nat -> Poll) {
    forall k :: 0 <= k < |seen| ==> seen[k] == polls(k)
  }

  /** Nothing seen so far ends the polling. */
  ghost predicate GoesOn(latest: Option<nat>, polls: seq<Poll>, validUntil: Option<nat>, maxErrors: nat) {
    && !AnyPast(polls, validUntil) && !AnySettled(polls)
    && ErrorStreak(polls) < maxErrors && LedgerStreak(latest, polls) < 3
  }

  /** Each lookup was made because nothing seen before it ended the polling. */
  ghost predicate PolledOn(latest: Option<nat>, polls: seq<Poll>, validUntil: Option<nat>, maxErrors: nat) {
    polls != [] ==>
      && GoesOn(latest, polls[..|polls| - 1], validUntil, maxErrors)
      && PolledOn(latest, polls[..|polls| - 1], validUntil, maxErrors)
  }

  /** Why polling stopped without an answer. */
  ghost predicate GaveUp(v: Verdict, accepted: bool, attempts: nat, latest: Option<nat>, maxErrors: nat,
                         polls: seq<Poll>, outOfTime: bool)
  {
    match v
    case StaleRpc => LedgerStreak(latest, polls) >= 3
    case Timeout => accepted && outOfTime
    case OutcomeUnknown(a, n, lookup) =>
      && a == accepted && n == attempts && lookup == LookupOf(polls)
      && (ErrorStreak(polls) >= maxErrors || (!accepted && outOfTime))
    case _ => false
  }

  /** All that decides whether polling goes on, of the lookups so far; `on` says that it did so each time. */
  datatype Summary = Summary(past: bool, settled: bool, errors: nat, last: Option<nat>, streak: nat, lookup: Lookup, on: bool)

  predicate Ongoing(s: Summary, maxErrors: nat) {
    !s.past && !s.settled && s.errors < maxErrors && s.streak < STALE_LEDGER_POLLS
  }

  function Observe(s: Summary, p: Poll, validUntil: Option<nat>, maxErrors: nat): Summary {
    var reports := p.NotFound? && p.latest.Some?;
    Summary(s.past || Past(p, validUntil), s.settled || p.Success? || p.Failure?,
            if p.PollFailed? then s.errors + 1 else 0,
            if reports then p.latest else s.last,
            if !reports then s.streak else if p.latest == s.last then s.streak + 1 else 0,
            if p.NotFound? || s.lookup.LookupNotFound? then LookupNotFound else LookupFailed,
            s.on && Ongoing(s, maxErrors))
  }

  function Summarize(latest: Option<nat>, polls: seq<Poll>, validUntil: Option<nat>, maxErrors: nat): Summary {
    if polls == [] then Summary(false, false, 0, latest, 0, NotAttempted, true)
    else Observe(Summarize(latest, polls[..|polls| - 1], validUntil, maxErrors), polls[|polls| - 1], validUntil, maxErrors)
  }

  lemma {:induction false} SummaryGrows(latest: Option<nat>, polls: seq<Poll>, p: Poll, validUntil: Option<nat>, maxErrors: nat)
    ensures Summarize(latest, polls + [p], validUntil, maxErrors)
         == Observe(Summarize(latest, polls, validUntil, maxErrors), p, validUntil, maxErrors)
  {
    assert (polls + [p])[..|polls|] == polls;
  }

  /** What the summary is about. */
  lemma {:induction false} SummaryMeans(latest: Option<nat>, polls: seq<Poll>, validUntil: Option<nat>, maxErrors: nat)
    ensures Summarize(latest, polls, validUntil, maxErrors)
         == Summary(AnyPast(polls, validUntil), AnySettled(polls), ErrorStreak(polls), LastLedger(latest, polls),
                    LedgerStreak(latest, polls), LookupOf(polls), PolledOn(latest, polls, validUntil, maxErrors))
  {
    if polls != [] {
      SummaryMeans(latest, polls[..|polls| - 1], validUntil, maxErrors);
    }
  }

  /** Why polling stopped, in terms of the summary. */
  ghost predicate Ends(v: Verdict, s: Summary, accepted: bool, attempts: nat, ifNeverApplied: Verdict, maxErrors: nat, outOfTime: bool) {
    && s.on
    && match v
       case Confirmed(_) => s.settled && !s.past
       case TxFailed => s.settled && !s.past
       case StaleRpc => !s.past && !s.settled && s.streak >= STALE_LEDGER_POLLS
       case Timeout => !s.past && !s.settled && accepted && outOfTime
       case OutcomeUnknown(a, n, lookup) =>
         && !s.past && !s.settled && a == accepted && n == attempts && lookup == s.lookup
         && (s.errors >= maxErrors || (!accepted && outOfTime))
       case _ => s.past && !s.settled && v == ifNeverApplied
  }

  /** Look the hash up until its fate is known or the budget is spent. */
  method LookUntilKnown(polls: nat -> Poll, budget: nat, accepted: bool, attempts: nat, validUntil: Option<nat>,
                        latest: Option<nat>, ifNeverApplied: Verdict, maxErrors: nat)
    returns (v: Verdict, seen: seq<Poll>)
    requires maxErrors > 0 && Retryable(ifNeverApplied)
    ensures |seen| <= budget && Follows(seen, polls)
    ensures Ends(v, Summarize(latest, seen, validUntil, maxErrors), accepted, attempts, ifNeverApplied, maxErrors, |seen| == budget)
    ensures v.Confirmed? ==> seen != [] && seen[|seen| - 1] == Success(v.ledger)
    ensures v.TxFailed? ==> seen != [] && seen[|seen| - 1].Failure?
  {
    var consecutiveErrors, unchangedLedgerPolls := 0, 0;
    var lastLedger := latest;
    var lookup := NotAttempted;
    seen := [];
    while |seen| < budget
      invariant |seen| <= budget && Follows(seen, polls)
      invariant consecutiveErrors < maxErrors && unchangedLedgerPolls < STALE_LEDGER_POLLS
      invariant Summarize(latest, seen, validUntil, maxErrors)
             == Summary(false, false, consecutiveErrors, lastLedger, unchangedLedgerPolls, lookup, true)
    {
      var p := polls(|seen|);
      SummaryGrows(latest, seen, p, validUntil, maxErrors);
      seen := seen + [p];
      match p {
        case PollFailed =>
          consecutiveErrors := consecutiveErrors + 1;
          if lookup.NotAttempted? {
            lookup := LookupFailed;
          }
          if consecutiveErrors >= maxErrors {
            return OutcomeUnknown(accepted, attempts, lookup), seen;
          }
        case Success(ledger) =>
          return Confirmed(ledger), seen;
        case Failure(_) =>
          return TxFailed, seen;
        case NotFound(reported, closeTime) =>
          consecutiveErrors := 0;
          lookup := LookupNotFound;
          if validUntil.Some? && closeTime.Some? && closeTime.value > validUntil.value {
            return ifNeverApplied, seen;
          }
          if reported.Some? {
            if reported == lastLedger {
              unchangedLedgerPolls := unchangedLedgerPolls + 1;
              if unchangedLedgerPolls >= STALE_LEDGER_POLLS {
                return StaleRpc, seen;
              }
            } else {
              lastLedger := reported;
              unchangedLedgerPolls := 0;
            }
          }
      }
    }
    v := if accepted then Timeout else OutcomeUnknown(false, attempts, lookup);
  }

  /** The same, said about the lookups themselves; `budget` of them fit into the timeout. */
  method AwaitConfirmation(polls: nat -> Poll, budget: nat, accepted: bool, attempts: nat, validUntil: Option<nat>,
                           latest: Option<nat>, ifNeverApplied: Verdict, maxErrors: nat)
    returns (v: Verdict, seen: seq<Poll>)
    requires maxErrors > 0 && Retryable(ifNeverApplied)
    ensures |seen| <= budget && Follows(seen, polls)
    ensures Retryable(v) <==> AnyPast(seen, validUntil)
    ensures Retryable(v) ==> v == ifNeverApplied
    ensures Included(v) <==> AnySettled(seen)
    ensures v.Confirmed? ==> seen != [] && seen[|seen| - 1] == Success(v.ledger)
    ensures v.TxFailed? ==> seen != [] && seen[|seen| - 1].Failure?
    ensures Retryable(v) || Included(v) || GaveUp(v, accepted, attempts, latest, maxErrors, seen, |seen| == budget)
    ensures PolledOn(latest, seen, validUntil, maxErrors)
  {
    v, seen := LookUntilKnown(polls, budget, accepted, attempts, validUntil, latest, ifNeverApplied, maxErrors);
    SummaryMeans(latest, seen, validUntil, maxErrors);
  }

  datatype Account = Loaded | Missing | Unreachable
  datatype Simulation = Simulated | Refused | NoAnswer

  /** What the steps before submission met. */
  datatype Preparation = Preparation(valid: bool, account: Account, built: bool, simulation: Simulation, signed: bool)

  /** The transaction could be built from a loaded account, and the simulation accepted it. */
  predicate Builds(p: Preparation) {
    p.valid && p.account.Loaded? && p.built
  }

  predicate Simulates(p: Preparation) {
    Builds(p) && p.simulation.Simulated?
  }

  /** A verdict before anything was sent names the first step that failed. */
  ghost predicate NamesFirstFailure(v: Verdict, p: Preparation) {
    && (v.InvalidArgument? <==> !p.valid || (p.account.Loaded? && !p.built))
    && (v.AccountNotFound? <==> p.valid && p.account.Missing?)
    && (v.SimulationFailed? <==> Builds(p) && p.simulation.Refused?)
    && (v.Unknown? <==> Simulates(p) && !p.signed)
    && (v.NetworkError? <==> p.valid && (p.account.Unreachable? || (Builds(p) && p.simulation.NoAnswer?)))
  }

  /** The first step that failed decides the verdict; nothing is sent unless none did. */
  function Prepare(p: Preparation): (v: Option<Verdict>)
    ensures v.None? <==> Simulates(p) && p.signed
    ensures v.Some? ==> NamesFirstFailure(v.value, p) && (Early(v.value) || v.value.NetworkError?)
  {
    if !p.valid then Some(InvalidArgument)
    else if p.account.Missing? then Some(AccountNotFound)
    else if p.account.Unreachable? then Some(NetworkError)
    else if !p.built then Some(InvalidArgument)
    else if p.simulation.NoAnswer? then Some(NetworkError)
    else if p.simulation.Refused? then Some(SimulationFailed)
    else if !p.signed then Some(Unknown)
    else None
  }

  /** Everything one call of the write path may meet. */
  datatype Call = Call(prep: Preparation, hash: Hash, validUntil: Option<nat>, sends: nat -> Send, polls: nat -> Poll,
                       budget: nat, maxErrors: nat)

  /** What a verdict claims is what the replies prove. */
  ghost predicate Justified(v: Verdict, seen: Seen, validUntil: Option<nat>) {
    && (Retryable(v) || Early(v) <==> Excluded(seen, validUntil))
    && (Included(v) <==> Settled(seen))
    && (v.Confirmed? ==> seen.polls != [] && seen.polls[|seen.polls| - 1] == Success(v.ledger))
    && (v.TxFailed? ==> seen.polls != [] && seen.polls[|seen.polls| - 1].Failure?)
  }

  /** The RPC took the envelope: the last send was answered PENDING or DUPLICATE. */
  predicate Accepted(sends: seq<Send>) {
    sends != [] && sends[|sends| - 1].Answered? && (sends[|sends| - 1].status.Pending? || sends[|sends| - 1].status.Duplicate?)
  }

  function InitialLedger(sends: seq<Send>): Option<nat> {
    if Accepted(sends) then sends[|sends| - 1].latest else None
  }

  /** The code names what the last send met, or why polling gave up. */
  ghost predicate Diagnosed(v: Verdict, seen: Seen, validUntil: Option<nat>, maxErrors: nat, outOfTime: bool) {
    var sends := seen.sends;
    && (Open(v) ==> GaveUp(v, Accepted(sends), |sends|, InitialLedger(sends), maxErrors, seen.polls, outOfTime))
    && (v.TxRejected? ==> sends != [] && sends[|sends| - 1].Answered? && sends[|sends| - 1].status.Error?)
    && (v.TryAgain? ==> sends != [] && sends[|sends| - 1].Answered? && sends[|sends| - 1].status.TryAgainLater?)
    && (v.NetworkError? ==> seen.polls == [] && (sends == [] || sends[|sends| - 1].SendFailed?))
    && (v.TxExpired? ==> sends != [] && (Accepted(sends) || sends[|sends| - 1].SendFailed?))
    && PolledOn(InitialLedger(sends), seen.polls, validUntil, maxErrors)
  }

  lemma {:induction false} NothingDelivered(v: Verdict, sends: seq<Send>, validUntil: Option<nat>)
    requires !MaybeDelivered(sends) && (Retryable(v) || Early(v))
    ensures Justified(v, Seen(sends, []), validUntil)
  {
  }

  /** Settle an envelope that may have been delivered by looking it up. */
  method Settle(c: Call, sends: seq<Send>, accepted: bool, latest: Option<nat>, ifNeverApplied: Verdict)
    returns (v: Verdict, seen: Seen)
    requires c.maxErrors > 0 && MaybeDelivered(sends) && Retryable(ifNeverApplied)
    ensures seen.sends == sends && |seen.polls| <= c.budget && Follows(seen.polls, c.polls)
    ensures Justified(v, seen, c.validUntil) && !Early(v) && PolledOn(latest, seen.polls, c.validUntil, c.maxErrors)
    ensures Retryable(v) ==> v == ifNeverApplied
    ensures Open(v) ==> GaveUp(v, accepted, |sends|, latest, c.maxErrors, seen.polls, |seen.polls| == c.budget)
  {
    var polls;
    v, polls := AwaitConfirmation(c.polls, c.budget, accepted, |sends|, c.validUntil, latest, ifNeverApplied, c.maxErrors);
    seen := Seen(sends, polls);
  }

  /** What the reply to the last send, and whether an earlier one may have been delivered, come to. */
  method Conclude(c: Call, sends: seq<Send>, status: SendStatus, latest: Option<nat>, priorAmbiguous: bool)
    returns (v: Verdict, seen: Seen)
    requires c.maxErrors > 0 && sends != [] && sends[|sends| - 1] == Answered(status, latest)
    requires priorAmbiguous <==> MaybeDelivered(sends[..|sends| - 1])
    ensures seen.sends == sends && |seen.polls| <= c.budget && Follows(seen.polls, c.polls)
    ensures Justified(v, seen, c.validUntil) && Diagnosed(v, seen, c.validUntil, c.maxErrors, |seen.polls| == c.budget) && !Early(v)
  {
    var n := |sends|;
    assert sends == sends[..n - 1] + [sends[n - 1]];
    DeliveredGrows(sends[..n - 1], sends[n - 1]);
    if status.Error? || status.TryAgainLater? {
      var refusal := if status.Error? then TxRejected else TryAgain;
      if !priorAmbiguous {
        NothingDelivered(refusal, sends, c.validUntil);
        return refusal, Seen(sends, []);
      }
      v, seen := Settle(c, sends, false, None, refusal);
    } else {
      v, seen := Settle(c, sends, true, latest, TxExpired);
    }
  }

  /**
   * The write path.  A verdict is safe to rebuild on, or rules out that anything was sent, exactly when the
   * replies exclude the envelope; it says "included" exactly when a lookup found it; everything else is open.
   */
  method BuildAndSend(c: Call) returns (v: Verdict, seen: Seen)
    requires c.maxErrors > 0
    ensures |seen.sends| <= 3 && |seen.polls| <= c.budget
    ensures forall k :: 0 <= k < |seen.sends| ==> seen.sends[k] == c.sends(k)
    ensures Follows(seen.polls, c.polls)
    ensures Justified(v, seen, c.validUntil) && Diagnosed(v, seen, c.validUntil, c.maxErrors, |seen.polls| == c.budget)
    ensures seen.sends == [] <==> !(Simulates(c.prep) && c.prep.signed)
    ensures seen.sends == [] ==> NamesFirstFailure(v, c.prep) && seen.polls == []
    ensures Early(v) ==> seen.sends == []
  {
    var early := Prepare(c.prep);
    if early.Some? {
      NothingDelivered(early.value, [], c.validUntil);
      return early.value, Seen([], []);
    }
    var sent, sends := SubmitEnvelope(c.sends);
    match sent {
      case NotSubmitted =>
        NothingDelivered(NetworkError, sends, c.validUntil);
        return NetworkError, Seen(sends, []);
      case Ambiguous =>
        v, seen := Settle(c, sends, false, None, TxExpired);
      case Response(status, latest, priorAmbiguous) =>
        v, seen := Conclude(c, sends, status, latest, priorAmbiguous);
    }
  }

  /**
   * The classification is exact: replies exclude (or settle) an envelope if and only if it is never (or
   * always) on chain in the worlds that explain them.  With `BuildAndSend`, a verdict is open only if the
   * same replies are compatible with both outcomes.
   */
  lemma {:induction false} VerdictsAreExact(w: World, seen: Seen, hash: Hash, validUntil: Option<nat>)
    requires Explains(w, seen, hash, validUntil)
    ensures Excluded(seen, validUntil) <==> forall u :: Explains(u, seen, hash, validUntil) ==> !OnChain(u.chain, hash)
    ensures Settled(seen) <==> forall u :: Explains(u, seen, hash, validUntil) ==> OnChain(u.chain, hash)
  {
    if Excluded(seen, validUntil) {
      forall u | Explains(u, seen, hash, validUntil) ensures !OnChain(u.chain, hash) {
        ExcludedNeverApplied(u, seen, hash, validUntil);
      }
    }
    if Settled(seen) {
      SettledSomewhere(seen.polls);
      var k :| 0 <= k < |seen.polls| && (seen.polls[k].Success? || seen.polls[k].Failure?);
      forall u | Explains(u, seen, hash, validUntil) ensures OnChain(u.chain, hash) {
        SettledIsApplied(u, seen, hash, validUntil, k);
      }
    } else {
      NeverAppliedPossible(w, seen, hash, validUntil);
      if !Excluded(seen, validUntil) {
        var u := AppliedPossible(w, seen, hash, validUntil);
      }
    }
  }

  // ----- A caller that rebuilds -----

  /** In how many ledgers a hash was included. */
  function Inclusions(chain: seq<Ledger>, hash: Hash): nat {
    if chain == [] then 0
    else Inclusions(chain[..|chain| - 1], hash) + if hash in chain[|chain| - 1].txs then 1 else 0
  }

  /** How often any of the first `n` envelopes was included. */
  function Total(chain: seq<Ledger>, calls: nat -> Call, n: nat): nat {
    if n == 0 then 0 else Total(chain, calls, n - 1) + Inclusions(chain, calls(n - 1).hash)
  }

  lemma {:induction false} InclusionsOf(chain: seq<Ledger>, hash: Hash, validUntil: Option<nat>)
    requires Lawful(chain, hash, validUntil)
    ensures Inclusions(chain, hash) == if OnChain(chain, hash) then 1 else 0
  {
    if chain != [] {
      var n := |chain| - 1;
      InclusionsOf(chain[..n], hash, validUntil);
      if i :| 0 <= i < |chain| && hash in chain[i].txs {
        assert i < n ==> chain[..n][i] == chain[i];
        forall j | 0 <= j < n && hash in chain[j].txs && hash in chain[n].txs ensures false {
        }
      }
    }
  }

  lemma {:induction false} NothingApplied(chain: seq<Ledger>, calls: nat -> Call, n: nat)
    requires forall i :: 0 <= i < n ==> Inclusions(chain, calls(i).hash) == 0
    ensures Total(chain, calls, n) == 0
  {
    if n > 0 {
      NothingApplied(chain, calls, n - 1);
    }
  }

  ghost predicate AllExplained(chain: seq<Ledger>, worlds: nat -> World, calls: nat -> Call, seen: seq<Seen>) {
    forall i :: 0 <= i < |seen| ==>
      worlds(i).chain == chain && Explains(worlds(i), seen[i], calls(i).hash, calls(i).validUntil)
  }

  ghost predicate AllExcluded(calls: nat -> Call, seen: seq<Seen>) {
    forall i :: 0 <= i < |seen| ==> Excluded(seen[i], calls(i).validUntil)
  }

  /**
   * A caller that means one write.  It rebuilds after a retryable verdict, and after an open one only if a
   * later lookup of the original hash proves that envelope dead; otherwise it stops.  Over all its calls,
   * whatever their replies, at most one envelope is ever included, and it is the last one.
   */
  method WriteAtMostOnce(calls: nat -> Call, recover: nat -> Poll, maxCalls: nat,
                         ghost chain: seq<Ledger>, ghost worlds: nat -> World)
    returns (v: Verdict, seen: seq<Seen>)
    requires maxCalls > 0 && forall i :: calls(i).maxErrors > 0
    ensures 0 < |seen| <= maxCalls
    ensures forall i :: 0 <= i < |seen| ==> Met(calls(i), recover(i), seen[i])
    ensures |seen| < maxCalls ==> !Retryable(v) && !(Open(v) && Past(recover(|seen| - 1), calls(|seen| - 1).validUntil))
    ensures AllExplained(chain, worlds, calls, seen) ==> AppliedAtMostOnce(chain, calls, |seen|, v)
  {
    seen := [];
    v := Unknown;
    var made := 0;
    while made < maxCalls
      invariant made == |seen| <= maxCalls
      invariant AllExcluded(calls, seen)
      invariant forall i :: 0 <= i < |seen| ==> Met(calls(i), recover(i), seen[i])
      invariant made > 0 ==> Retryable(v) || Open(v)
    {
      var before := seen;
      var dead, s;
      v, s, dead := SendAndRecover(calls(made), recover(made));
      made := made + 1;
      seen := before + [s];
      if !dead {
        Stops(chain, worlds, calls, before, s, v);
        return;
      }
    }
    RunsOut(chain, worlds, calls, seen, v);
  }

  /** The caller's budget of calls is spent and every envelope is dead. */
  lemma {:induction false} RunsOut(chain: seq<Ledger>, worlds: nat -> World, calls: nat -> Call, seen: seq<Seen>, v: Verdict)
    requires seen != [] && AllExcluded(calls, seen) && (Retryable(v) || Open(v))
    ensures AllExplained(chain, worlds, calls, seen) ==> AppliedAtMostOnce(chain, calls, |seen|, v)
  {
    var n := |seen| - 1;
    assert seen == seen[..n] + [seen[n]];
    Stops(chain, worlds, calls, seen[..n], seen[n], v);
  }

  /** The sends and lookups are what the call met, and possibly one later lookup. */
  ghost predicate Met(c: Call, p: Poll, seen: Seen) {
    && (forall k :: 0 <= k < |seen.sends| ==> seen.sends[k] == c.sends(k))
    && var n := |seen.polls|;
       || Follows(seen.polls, c.polls)
       || (n > 0 && Follows(seen.polls[..n - 1], c.polls) && seen.polls[n - 1] == p)
  }

  /** One call and, if its verdict is open, one later lookup of its hash; `dead` permits a rebuild. */
  method SendAndRecover(c: Call, p: Poll) returns (v: Verdict, seen: Seen, dead: bool)
    requires c.maxErrors > 0
    ensures dead <==> Retryable(v) || (Open(v) && Past(p, c.validUntil))
    ensures dead ==> Excluded(seen, c.validUntil)
    ensures Met(c, p, seen)
    ensures !dead ==> Justified(v, seen, c.validUntil)
  {
    var s;
    v, s := BuildAndSend(c);
    seen, dead := s, Retryable(v);
    if Open(v) {
      dead := Past(p, c.validUntil);
      PollsGrow(s.polls, p, c.validUntil);
      if dead {
        seen := Seen(s.sends, s.polls + [p]);
      }
    }
  }

  ghost predicate AppliedAtMostOnce(chain: seq<Ledger>, calls: nat -> Call, n: nat, v: Verdict)
    requires n > 0
  {
    && Total(chain, calls, n) <= 1
    && Total(chain, calls, n - 1) == 0
    && (Retryable(v) || Early(v) ==> Total(chain, calls, n) == 0)
    && (Included(v) ==> Total(chain, calls, n) == 1)
    && (v.Confirmed? ==> 0 < v.ledger <= |chain| && calls(n - 1).hash in chain[v.ledger - 1].txs
                         && chain[v.ledger - 1].txs[calls(n - 1).hash])
  }

  lemma {:induction false} Stops(chain: seq<Ledger>, worlds: nat -> World, calls: nat -> Call, before: seq<Seen>, s: Seen, v: Verdict)
    requires AllExcluded(calls, before)
    requires Retryable(v) || Early(v) ==> Excluded(s, calls(|before|).validUntil)
    requires v.Confirmed? ==> s.polls != [] && s.polls[|s.polls| - 1] == Success(v.ledger)
    requires v.TxFailed? ==> s.polls != [] && s.polls[|s.polls| - 1].Failure?
    ensures AllExplained(chain, worlds, calls, before + [s]) ==> AppliedAtMostOnce(chain, calls, |before| + 1, v)
  {
    var n := |before|;
    AtMostLast(chain, worlds, calls, before, s);
    if Included(v) && AllExplained(chain, worlds, calls, before + [s]) {
      assert (before + [s])[n] == s;
      SettledIsApplied(worlds(n), s, calls(n).hash, calls(n).validUntil, |s.polls| - 1);
    }
  }

  /** With every earlier envelope excluded, only the last one can have been included. */
  lemma {:induction false} AtMostLast(chain: seq<Ledger>, worlds: nat -> World, calls: nat -> Call, before: seq<Seen>, last: Seen)
    requires AllExcluded(calls, before)
    ensures var n := |before|;
            AllExplained(chain, worlds, calls, before + [last]) ==>
              && Total(chain, calls, n) == 0
              && Total(chain, calls, n + 1) == (if OnChain(chain, calls(n).hash) then 1 else 0)
              && (Excluded(last, calls(n).validUntil) ==> !OnChain(chain, calls(n).hash))
  {
    var n := |before|;
    if AllExplained(chain, worlds, calls, before + [last]) {
      forall i | 0 <= i < n ensures Inclusions(chain, calls(i).hash) == 0 {
        assert (before + [last])[i] == before[i];
        ExcludedNeverApplied(worlds(i), before[i], calls(i).hash, calls(i).validUntil);
        InclusionsOf(chain, calls(i).hash, calls(i).validUntil);
      }
      NothingApplied(chain, calls, n);
      assert (before + [last])[n] == last;
      InclusionsOf(chain, calls(n).hash, calls(n).validUntil);
      if Excluded(last, calls(n).validUntil) {
        ExcludedNeverApplied(worlds(n), last, calls(n).hash, calls(n).validUntil);
      }
    }
  }
}
