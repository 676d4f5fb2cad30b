/**
 * Which contracts a poll asks about.  The indexer fetches the factory and reputation events first, adds the
 * circles they create to the circles it has rows for, fetches those five at a time, and sorts the union.
 */
module Discovery {
  import opened Prelude
  import opened Events
  import opened World
  import opened Mirror
  import opened Projection
  import opened Sorting
  import opened Fetch
  import opened EndToEnd
  import Ingest

  const PLATFORM: seq<Address> := [FACTORY, REPUTATION]
  const PROVIDER_IDS := 5

  /** The RPC: which page of which contracts' events. */
  type Rpc = seq<Address> -> Pager

  /** Positions number the chain's events. */
  ghost predicate Positioned(chain: seq<Event>) {
    forall i :: 0 <= i < |chain| ==> chain[i].pos == i
  }

  /** The items are the routed chain's events in ledgers above `last`, up to `to`, each once and in order. */
  ghost predicate ExactlyRouted(items: seq<Event>, chain: seq<Event>, last: nat, to: nat) {
    items == Ingest.Slice(Routed(chain), last, to)
  }

  /** The events of some contracts from ledger `from` on, in chain order. */
  function Matching(chain: seq<Event>, ids: seq<Address>, from: nat): seq<Event> {
    if chain == [] then []
    else
      var last := chain[|chain| - 1];
      Matching(chain[..|chain| - 1], ids, from) + if last.contractId in ids && last.ledger >= from then [last] else []
  }

  /** The RPC answers for at most five contracts at a time. */
  ghost predicate HonestRpc(rpc: Rpc, chain: seq<Event>, from: nat, limit: nat, to: nat) {
    forall ids :: |ids| <= 5 ==> Honest(rpc(ids), Matching(chain, ids, from), limit, to)
  }

  /** Every request is answered with a page, by a server that holds the whole range. */
  ghost predicate ServesRpc(rpc: Rpc, to: nat) {
    forall ids :: |ids| <= 5 ==> Serves(rpc(ids), to)
  }

  /** `(ledger, position)` order: the canonical on-chain order. */
  predicate Before(a: Event, b: Event) {
    a.ledger < b.ledger || (a.ledger == b.ledger && a.pos <= b.pos)
  }

  predicate InRange(e: Event, ids: set<Address>, from: nat, to: nat) {
    e.contractId in ids && from <= e.ledger <= to
  }

  /** How often a fetched list must hold an event: once per occurrence in the chain. */
  ghost function Expected(chain: seq<Event>, ids: set<Address>, from: nat, to: nat, e: Event): nat {
    if InRange(e, ids, from, to) then multiset(chain)[e] else 0
  }

  /** The list holds exactly the chain's events of these contracts in this range. */
  ghost predicate Holds(events: seq<Event>, chain: seq<Event>, ids: set<Address>, from: nat, to: nat) {
    forall e :: multiset(events)[e] == Expected(chain, ids, from, to, e)
  }

  /** The circles whose creation a list of factory events announces. */
  function Created(events: seq<Event>): seq<Address> {
    if events == [] then []
    else
      var last := events[|events| - 1];
      Created(events[..|events| - 1]) + if last.payload.CircleCreated? then [last.payload.circle] else []
  }

  lemma {:induction false} CreatedFrom(events: seq<Event>, a: Address)
    ensures a in Created(events) <==> exists e :: e in events && e.payload.CircleCreated? && e.payload.circle == a
  {
    if events != [] {
      CreatedFrom(events[..|events| - 1], a);
      assert events == events[..|events| - 1] + [events[|events| - 1]];
    }
  }

  // ----- Counting -----

  lemma {:induction false} MatchingCount(chain: seq<Event>, ids: seq<Address>, from: nat, e: Event)
    ensures multiset(Matching(chain, ids, from))[e] == if e.contractId in ids && e.ledger >= from then multiset(chain)[e] else 0
  {
    if chain != [] {
      var init, last := chain[..|chain| - 1], chain[|chain| - 1];
      MatchingCount(init, ids, from, e);
      assert chain == init + [last];
      CountSnoc(init, last, e);
      CountSnoc(Matching(init, ids, from), last, e);
    }
  }

  lemma {:induction false} CountSnoc(events: seq<Event>, last: Event, e: Event)
    ensures multiset(events + [last])[e] == multiset(events)[e] + if last == e then 1 else 0
    ensures events + [] == events
  {
  }

  lemma {:induction false} UpToCount(events: seq<Event>, to: nat, e: Event)
    ensures multiset(UpTo(events, to))[e] == if e.ledger <= to then multiset(events)[e] else 0
  {
    if events != [] {
      var init, last := events[..|events| - 1], events[|events| - 1];
      UpToCount(init, to, e);
      assert events == init + [last];
      CountSnoc(init, last, e);
      CountSnoc(UpTo(init, to), last, e);
    }
  }

  /** How many of `n` copies of an event pass the routing. */
  function RoutedCopies(e: Event, n: nat): nat {
    if RouteOf(e).Ignore? then 0 else n
  }

  lemma {:induction false} RoutedCount(events: seq<Event>, e: Event)
    ensures multiset(Routed(events))[e] == RoutedCopies(e, multiset(events)[e])
  {
    if events != [] {
      var init, last := events[..|events| - 1], events[|events| - 1];
      RoutedCount(init, e);
      assert events == init + [last];
      CountSnoc(init, last, e);
      CountSnoc(Routed(init), last, e);
    }
  }

  lemma {:induction false} CountConcat(a: seq<Event>, b: seq<Event>, e: Event)
    ensures multiset(a + b)[e] == multiset(a)[e] + multiset(b)[e]
  {
  }

  lemma {:induction false} MatchingOrdered(chain: seq<Event>, ids: seq<Address>, from: nat)
    requires Ingest.Ordered(chain)
    ensures Ingest.Ordered(Matching(chain, ids, from))
    ensures forall e :: e in Matching(chain, ids, from) ==> e in chain
  {
    if chain != [] {
      var init, last := chain[..|chain| - 1], chain[|chain| - 1];
      MatchingOrdered(init, ids, from);
      assert chain == init + [last];
      var m := Matching(init, ids, from);
      forall i | 0 <= i < |m| ensures m[i].ledger <= last.ledger {
        assert m[i] in init;
      }
    }
  }

  lemma {:induction false} MatchingInSpan(chain: seq<Event>, ids: seq<Address>, from: nat)
    requires Ingest.Ordered(chain)
    ensures InSpan(Matching(chain, ids, from), from)
  {
    MatchingOrdered(chain, ids, from);
    MatchingFrom(chain, ids, from);
  }

  lemma {:induction false} MatchingFrom(chain: seq<Event>, ids: seq<Address>, from: nat)
    ensures forall i :: 0 <= i < |Matching(chain, ids, from)| ==> from <= Matching(chain, ids, from)[i].ledger
  {
    if chain != [] {
      MatchingFrom(chain[..|chain| - 1], ids, from);
    }
  }

  /** What one complete fetch holds. */
  lemma {:induction false} FetchHolds(chain: seq<Event>, ids: seq<Address>, from: nat, to: nat)
    requires Ingest.Ordered(chain)
    ensures var m := Matching(chain, ids, from);
            Ingest.Ordered(m) && Holds(m[..Ingest.Cut(m, to)], chain, Elements(ids), from, to)
  {
    var m := Matching(chain, ids, from);
    MatchingOrdered(chain, ids, from);
    UpToIsPrefix(m, to);
    forall e ensures multiset(UpTo(m, to))[e] == Expected(chain, Elements(ids), from, to, e) {
      MatchingCount(chain, ids, from, e);
      UpToCount(m, to, e);
      assert e.contractId in ids <==> e.contractId in Elements(ids);
    }
  }

  /** A slice of an ordered sequence counts exactly the events of its ledgers. */
  lemma {:induction false} SliceCount(events: seq<Event>, lo: nat, hi: nat, e: Event)
    requires Ingest.Ordered(events) && lo <= hi
    ensures multiset(Ingest.Slice(events, lo, hi))[e] == if lo < e.ledger <= hi then multiset(events)[e] else 0
  {
    Ingest.CutMonotone(events, lo, hi);
    UpToIsPrefix(events, lo);
    UpToIsPrefix(events, hi);
    var l, r := Ingest.Cut(events, lo), Ingest.Cut(events, hi);
    assert events[..r] == events[..l] + events[l..r];
    UpToCount(events, lo, e);
    UpToCount(events, hi, e);
  }

  /** Every event of the range comes from the platform, a known circle, or one created in the range. */
  ghost predicate Covered(chain: seq<Event>, existing: seq<Address>, from: nat, to: nat) {
    && (forall e :: e in chain && from <= e.ledger <= to ==>
          e.contractId in PLATFORM || e.contractId in existing || Announced(chain, e.contractId, from, to))
    && (forall e :: e in chain && e.payload.CircleCreated? ==> e.contractId == FACTORY && e.payload.circle !in PLATFORM)
    && (forall a :: a in existing ==> a !in PLATFORM)
  }

  ghost predicate Announced(chain: seq<Event>, a: Address, from: nat, to: nat) {
    exists e :: e in chain && from <= e.ledger <= to && e.payload.CircleCreated? && e.payload.circle == a
  }

  /** Every event of the range comes from one of the contracts. */
  ghost predicate AllFrom(chain: seq<Event>, ids: set<Address>, from: nat, to: nat) {
    forall e :: e in chain && from <= e.ledger <= to ==> e.contractId in ids
  }

  /** The sorted union of the fetches is the routed chain's slice. */
  lemma {:induction false} SortedIsSlice(events: seq<Event>, chain: seq<Event>, ids: set<Address>, from: nat, to: nat)
    requires 0 < from <= to && Ingest.Ordered(chain)
    requires Positioned(chain)
    requires Holds(events, chain, ids, from, to) && AllFrom(chain, ids, from, to)
    ensures Sort(Before, Routed(events)) == Ingest.Slice(Routed(chain), from - 1, to)
  {
    var routed, slice := Routed(events), Ingest.Slice(Routed(chain), from - 1, to);
    assert multiset(routed) == multiset(slice) by {
      RoutedMultisets(events, chain, ids, from, to);
    }
    SortReachesSlice(routed, chain, from - 1, to, slice);
  }

  lemma {:induction false} SliceArranged(chain: seq<Event>, lo: nat, hi: nat)
    requires Ingest.Ordered(chain) && Positioned(chain)
    ensures var slice := Ingest.Slice(Routed(chain), lo, hi); Sorted(Before, slice) && AntisymmetricOn(Before, slice)
  {
    SliceSorted(chain, lo, hi);
    SliceAntisymmetric(chain, lo, hi);
  }

  lemma {:induction false} SortReachesSlice(events: seq<Event>, chain: seq<Event>, lo: nat, hi: nat, slice: seq<Event>)
    requires Ingest.Ordered(chain) && Positioned(chain)
    requires slice == Ingest.Slice(Routed(chain), lo, hi) && multiset(events) == multiset(slice)
    ensures Sort(Before, events) == slice
  {
    SliceArranged(chain, lo, hi);
    SortReaches(events, slice);
  }

  lemma {:induction false} SortReaches(events: seq<Event>, target: seq<Event>)
    requires multiset(events) == multiset(target) && Sorted(Before, target) && AntisymmetricOn(Before, target)
    ensures Sort(Before, events) == target
  {
    SortPermutes(Before, events);
    SortSorts(Before, events);
    SortedUnique(Before, target, Sort(Before, events));
  }

  lemma {:induction false} RoutedMultisets(events: seq<Event>, chain: seq<Event>, ids: set<Address>, from: nat, to: nat)
    requires 0 < from <= to && Ingest.Ordered(chain) && Holds(events, chain, ids, from, to)
    requires AllFrom(chain, ids, from, to)
    ensures multiset(Routed(events)) == multiset(Ingest.Slice(Routed(chain), from - 1, to))
  {
    forall e ensures multiset(Routed(events))[e] == multiset(Ingest.Slice(Routed(chain), from - 1, to))[e] {
      assert multiset(events)[e] == Expected(chain, ids, from, to, e);
      assert e in chain <==> multiset(chain)[e] > 0;
      RoutedMatches(events, chain, from, to, e, multiset(events)[e]);
    }
  }

  lemma {:induction false} RoutedCountIs(events: seq<Event>, e: Event, n: nat)
    requires multiset(events)[e] == n
    ensures multiset(Routed(events))[e] == RoutedCopies(e, n)
  {
    RoutedCount(events, e);
  }

  lemma {:induction false} RoutedMatches(events: seq<Event>, chain: seq<Event>, from: nat, to: nat, e: Event, n: nat)
    requires 0 < from <= to && Ingest.Ordered(chain) && n == if from <= e.ledger <= to then multiset(chain)[e] else 0
    requires multiset(events)[e] == n
    ensures multiset(Routed(events))[e] == multiset(Ingest.Slice(Routed(chain), from - 1, to))[e]
  {
    RoutedCountIs(events, e, n);
    RoutedSliceCount(chain, from - 1, to, e, n);
  }

  lemma {:induction false} RoutedSliceCount(chain: seq<Event>, lo: nat, hi: nat, e: Event, n: nat)
    requires Ingest.Ordered(chain) && lo <= hi && n == if lo < e.ledger <= hi then multiset(chain)[e] else 0
    ensures multiset(Ingest.Slice(Routed(chain), lo, hi))[e] == RoutedCopies(e, n)
  {
    RoutedOrdered(chain);
    RoutedCount(chain, e);
    SliceCount(Routed(chain), lo, hi, e);
  }

  lemma {:induction false} SliceSorted(chain: seq<Event>, lo: nat, hi: nat)
    requires Ingest.Ordered(chain) && Positioned(chain)
    ensures Sorted(Before, Ingest.Slice(Routed(chain), lo, hi))
  {
    RoutedOrdered(chain);
    RoutedIncreasing(chain);
    RoutedSorted(Routed(chain));
    var a, b := Ingest.Cut(Routed(chain), lo), Ingest.Cut(Routed(chain), hi);
    if a <= b {
      StretchSorted(Routed(chain), a, b);
    }
  }

  lemma {:induction false} RoutedSorted(events: seq<Event>)
    requires Ingest.Ordered(events) && forall i, j :: 0 <= i < j < |events| ==> events[i].pos < events[j].pos
    ensures Sorted(Before, events)
  {
    forall i, j | 0 <= i < j < |events| ensures Before(events[i], events[j]) {
      assert events[i].pos < events[j].pos && events[i].ledger <= events[j].ledger;
    }
  }

  lemma {:induction false} StretchSorted(events: seq<Event>, lo: nat, hi: nat)
    requires lo <= hi <= |events| && Sorted(Before, events)
    ensures Sorted(Before, events[lo..hi])
  {
  }

  lemma {:induction false} SliceAntisymmetric(chain: seq<Event>, lo: nat, hi: nat)
    requires Positioned(chain)
    ensures AntisymmetricOn(Before, Ingest.Slice(Routed(chain), lo, hi))
  {
    RoutedFrom(chain);
    forall a | a in Ingest.Slice(Routed(chain), lo, hi) ensures a in chain {
      assert a in Routed(chain);
    }
  }

  // ----- The fetching part of a poll -----

  /** The distinct elements of `a` that are not in `known`, in order of first occurrence. */
  method NewOnes(known: seq<Address>, a: seq<Address>) returns (r: seq<Address>)
    requires Distinct(known)
    ensures Distinct(r) && known <= r
    ensures Elements(r) == Elements(known) + Elements(a)
  {
    r := known;
    for i := 0 to |a|
      invariant Distinct(r) && known <= r
      invariant Elements(r) == Elements(known) + Elements(a[..i])
    {
      assert a[..i + 1] == a[..i] + [a[i]];
      ElementsAppend(a[..i], a[i]);
      if a[i] !in r {
        ElementsAppend(r, a[i]);
        r := r + [a[i]];
      } else {
        assert a[i] in Elements(r);
      }
    }
    assert a[..|a|] == a;
  }

  lemma {:induction false} ElementsAppend<T>(a: seq<T>, x: T)
    ensures Elements(a + [x]) == Elements(a) + {x}
  {
    assert forall i :: 0 <= i < |a| ==> (a + [x])[i] == a[i];
    assert (a + [x])[|a|] == x;
  }

  lemma {:induction false} ElementsConcat<T>(a: seq<T>, b: seq<T>)
    ensures Elements(a + b) == Elements(a) + Elements(b)
  {
    forall x | x in Elements(a) + Elements(b) ensures x in Elements(a + b) {
      assert x in a + b;
    }
  }

  /** How many events the chain holds in ledgers from..to. */
  ghost function Density(chain: seq<Event>, from: nat, to: nat): nat
    requires 0 < from <= to
  {
    |Ingest.Slice(chain, from - 1, to)|
  }

  lemma {:induction false} HeldWithin(events: seq<Event>, chain: seq<Event>, ids: set<Address>, from: nat, to: nat)
    requires 0 < from <= to && Ingest.Ordered(chain) && Holds(events, chain, ids, from, to)
    ensures |events| <= Density(chain, from, to)
  {
    var slice := Ingest.Slice(chain, from - 1, to);
    forall e ensures multiset(events)[e] <= multiset(slice)[e] {
      HeldInSlice(events, chain, ids, from, to, e);
    }
    SubBag(multiset(events), multiset(slice));
    assert |multiset(events)| == |events| && |multiset(slice)| == |slice|;
  }

  lemma {:induction false} HeldInSlice(events: seq<Event>, chain: seq<Event>, ids: set<Address>, from: nat, to: nat, e: Event)
    requires 0 < from <= to && Ingest.Ordered(chain) && Holds(events, chain, ids, from, to)
    ensures multiset(events)[e] <= multiset(Ingest.Slice(chain, from - 1, to))[e]
  {
    SliceCount(chain, from - 1, to, e);
    assert multiset(events)[e] == Expected(chain, ids, from, to, e);
  }

  lemma {:induction false} SubBag(a: multiset<Event>, b: multiset<Event>)
    requires forall e :: a[e] <= b[e]
    ensures |a| <= |b|
  {
    assert b == a + (b - a);
  }

  /** One query: the complete list for its contracts, a blown budget, or an error. */
  method FetchIds(rpc: Rpc, stops: nat -> bool, ids: seq<Address>, from: nat, to: nat, limit: nat,
                  maxPages: nat, maxEvents: nat, ghost chain: seq<Event>)
    returns (r: FetchResult)
    requires 0 < from <= to && limit > 0 && Ingest.Ordered(chain) && HonestRpc(rpc, chain, from, limit, to) && |ids| <= 5
    ensures r.Fetched? ==> Holds(r.events, chain, Elements(ids), from, to)
    ensures r.OverBudget? ==> Overfull(chain, Elements(ids), from, to, limit, maxPages, maxEvents)
    ensures ServesRpc(rpc, to) && NeverStops(stops) ==> !r.Broken?
  {
    MatchingInSpan(chain, ids, from);
    ghost var m := Matching(chain, ids, from);
    ghost var all := m[..Ingest.Cut(m, to)];
    assert Ingest.Ordered(m) && Holds(all, chain, Elements(ids), from, to) by {
      FetchHolds(chain, ids, from, to);
    }
    assert Honest(rpc(ids), m, limit, to);
    var pages;
    r, pages := FetchAll(rpc(ids), stops, from, to, limit, maxPages, maxEvents, m);
    assert r.Fetched? ==> r.events == all;
  }

  /** What a query over budget shows: too many events for its event or its page budget. */
  ghost predicate Overfull(chain: seq<Event>, ids: set<Address>, from: nat, to: nat, limit: nat, maxPages: nat, maxEvents: nat) {
    exists all :: Holds(all, chain, ids, from, to) && (|all| > maxEvents || |all| >= maxPages * limit)
  }

  /** A query over what is left of the budget, next to events already fetched, shows that the range does not fit. */
  lemma {:induction false} OverfullIsUnfit(events: seq<Event>, chain: seq<Event>, ids: set<Address>, more: set<Address>,
                                           from: nat, to: nat, limit: nat, maxPages: nat, maxEvents: nat, left: nat)
    requires 0 < from <= to && Ingest.Ordered(chain) && ids !! more && |events| + left >= maxEvents
    requires Holds(events, chain, ids, from, to) && Overfull(chain, more, from, to, limit, maxPages, left)
    ensures !Fits(chain, from, to, limit, maxPages, maxEvents)
  {
    var all :| Holds(all, chain, more, from, to) && (|all| > left || |all| >= maxPages * limit);
    HoldsBoth(events, all, chain, ids, more, from, to);
    HeldWithin(events + all, chain, ids + more, from, to);
  }

  lemma {:induction false} HoldsBoth(events: seq<Event>, batch: seq<Event>, chain: seq<Event>, ids: set<Address>, more: set<Address>,
                                     from: nat, to: nat)
    requires ids !! more && Holds(events, chain, ids, from, to) && Holds(batch, chain, more, from, to)
    ensures Holds(events + batch, chain, ids + more, from, to)
  {
    forall e ensures multiset(events + batch)[e] == Expected(chain, ids + more, from, to, e) {
      CountConcat(events, batch, e);
      assert multiset(events)[e] == Expected(chain, ids, from, to, e);
      assert multiset(batch)[e] == Expected(chain, more, from, to, e);
    }
  }

  lemma {:induction false} NothingYet(chain: seq<Event>, from: nat, to: nat)
    ensures Holds([], chain, {}, from, to)
  {
  }

  /** The range fits the budgets: whatever is asked, the answer is not too long. */
  ghost predicate Fits(chain: seq<Event>, from: nat, to: nat, limit: nat, maxPages: nat, maxEvents: nat)
    requires 0 < from <= to
  {
    Density(chain, from, to) <= maxEvents && Density(chain, from, to) < maxPages * limit
  }

  /** The circle queries, five contracts at a time, against what the platform query left of the budget. */
  method FetchCircles(rpc: Rpc, stops: nat -> bool, platform: seq<Event>, circles: seq<Address>, from: nat, to: nat,
                      limit: nat, maxPages: nat, maxEvents: nat, ghost chain: seq<Event>)
    returns (r: FetchResult)
    requires 0 < from <= to && limit > 0 && Ingest.Ordered(chain) && HonestRpc(rpc, chain, from, limit, to)
    requires Distinct(circles) && forall a :: a in circles ==> a !in PLATFORM
    requires Holds(platform, chain, Elements(PLATFORM), from, to)
    ensures r.Fetched? ==> Holds(r.events, chain, Elements(PLATFORM) + Elements(circles), from, to)
    ensures r.OverBudget? ==> !Fits(chain, from, to, limit, maxPages, maxEvents)
    ensures ServesRpc(rpc, to) && NeverStops(stops) ==> !r.Broken?
  {
    var events := platform;
    var offset := 0;
    while offset < |circles|
      invariant 0 <= offset <= |circles|
      invariant Holds(events, chain, Elements(PLATFORM) + Elements(circles[..offset]), from, to)
      decreases |circles| - offset
    {
      var next := if offset + PROVIDER_IDS < |circles| then offset + PROVIDER_IDS else |circles|;
      var batch := circles[offset..next];
      ghost var ids := Elements(PLATFORM) + Elements(circles[..offset]);
      BatchJoins(circles, offset, next);
      var left := if |events| < maxEvents then maxEvents - |events| else 1;
      var fetched := FetchIds(rpc, stops, batch, from, to, limit, maxPages, left, chain);
      match fetched {
        case Broken =>
          return Broken;
        case OverBudget =>
          OverfullIsUnfit(events, chain, ids, Elements(batch), from, to, limit, maxPages, maxEvents, left);
          return OverBudget;
        case Fetched(more) =>
          events := events + more;
          if |events| > maxEvents {
            HeldWithin(events, chain, ids + Elements(batch), from, to);
            return OverBudget;
          }
      }
      offset := next;
    }
    assert circles[..|circles|] == circles;
    return Fetched(events);
  }

  /**
   * Fetch the items for ledgers from..to.  Against an honest RPC, and with a row for every circle created
   * before the range, the items are exactly the routed chain's slice: nothing is missed, doubled or
   * reordered.  A budget error shows that the range does not fit, and no other error is reported unless the
   * RPC fails to serve the range or the fetch is asked to stop; so a range that fits is fetched.
   */
  method Discover(rpc: Rpc, stops: nat -> bool, existing: seq<Address>, from: nat, to: nat, limit: nat,
                  maxPages: nat, maxEvents: nat, ghost chain: seq<Event>)
    returns (f: Ingest.Fetched)
    requires 0 < from <= to && limit > 0 && Distinct(existing)
    requires Ingest.Ordered(chain) && Positioned(chain)
    requires HonestRpc(rpc, chain, from, limit, to) && Covered(chain, existing, from, to)
    ensures f.Items? ==> ExactlyRouted(f.items, chain, from - 1, to)
    ensures f.BudgetExceeded? ==> !Fits(chain, from, to, limit, maxPages, maxEvents)
    ensures ServesRpc(rpc, to) && NeverStops(stops) ==> !f.FetchError?
  {
    var platform := FetchIds(rpc, stops, PLATFORM, from, to, limit, maxPages, maxEvents, chain);
    match platform {
      case Broken =>
        return Ingest.FetchError;
      case OverBudget =>
        NothingYet(chain, from, to);
        OverfullIsUnfit([], chain, {}, Elements(PLATFORM), from, to, limit, maxPages, maxEvents, maxEvents);
        return Ingest.BudgetExceeded;
      case Fetched(announcements) =>
        var circles := NewOnes(existing, Created(announcements));
        PlatformDisjoint(announcements, chain, existing, circles, from, to);
        var r := FetchCircles(rpc, stops, announcements, circles, from, to, limit, maxPages, maxEvents, chain);
        if !r.Fetched? {
          return if r.OverBudget? then Ingest.BudgetExceeded else Ingest.FetchError;
        }
        AllCovered(announcements, chain, existing, Elements(PLATFORM) + Elements(circles), from, to);
        SortedIsSlice(r.events, chain, Elements(PLATFORM) + Elements(circles), from, to);
        return Ingest.Items(Sort(Before, Routed(r.events)));
    }
  }

  lemma {:induction false} BatchJoins(circles: seq<Address>, offset: nat, next: nat)
    requires offset <= next <= |circles| && Distinct(circles)
    requires forall a :: a in circles ==> a !in PLATFORM
    ensures Elements(circles[..next]) == Elements(circles[..offset]) + Elements(circles[offset..next])
    ensures Elements(PLATFORM) + Elements(circles[..offset]) !! Elements(circles[offset..next])
  {
    assert circles[..next] == circles[..offset] + circles[offset..next];
    ElementsConcat(circles[..offset], circles[offset..next]);
    forall a | a in Elements(circles[offset..next])
      ensures a !in Elements(PLATFORM) && a !in Elements(circles[..offset])
    {
      assert a in circles;
    }
  }

  lemma {:induction false} HeldIsFetched(events: seq<Event>, chain: seq<Event>, from: nat, to: nat, e: Event)
    requires Holds(events, chain, Elements(PLATFORM), from, to)
    ensures e in events <==> e in chain && from <= e.ledger <= to && e.contractId in PLATFORM
  {
    assert multiset(events)[e] == Expected(chain, Elements(PLATFORM), from, to, e);
    assert e in events <==> multiset(events)[e] > 0;
    assert e in chain <==> multiset(chain)[e] > 0;
    assert e.contractId in PLATFORM <==> e.contractId in Elements(PLATFORM);
  }

  lemma {:induction false} PlatformDisjoint(events: seq<Event>, chain: seq<Event>, existing: seq<Address>, circles: seq<Address>,
                         from: nat, to: nat)
    requires Holds(events, chain, Elements(PLATFORM), from, to) && Covered(chain, existing, from, to)
    requires Elements(circles) == Elements(existing) + Elements(Created(events))
    ensures forall a :: a in circles ==> a !in PLATFORM
  {
    forall a | a in circles ensures a !in PLATFORM {
      assert a in Elements(circles);
      if a !in existing {
        assert a in Created(events);
        CreatedFrom(events, a);
        var e :| e in events && e.payload.CircleCreated? && e.payload.circle == a;
        HeldIsFetched(events, chain, from, to, e);
      }
    }
  }

  lemma {:induction false} AllCovered(events: seq<Event>, chain: seq<Event>, existing: seq<Address>, ids: set<Address>, from: nat, to: nat)
    requires Holds(events, chain, Elements(PLATFORM), from, to) && Covered(chain, existing, from, to)
    requires ids == Elements(PLATFORM) + (Elements(existing) + Elements(Created(events)))
    ensures AllFrom(chain, ids, from, to)
  {
    forall e | e in chain && from <= e.ledger <= to ensures e.contractId in ids {
      if e.contractId !in PLATFORM && e.contractId !in existing {
        var c :| c in chain && from <= c.ledger <= to && c.payload.CircleCreated? && c.payload.circle == e.contractId;
        HeldIsFetched(events, chain, from, to, c);
        CreatedFrom(events, e.contractId);
      }
    }
  }

  // ----- Histories satisfy the coverage the fetch relies on -----

  ghost predicate HasCreation(events: seq<Event>, a: Address) {
    exists e :: e in events && e.payload.CircleCreated? && e.payload.circle == a
  }

  ghost predicate Accountable(c: ChainState) {
    && (forall e :: e in c.events ==> e.contractId in PLATFORM || e.contractId in c.circles)
    && (forall e :: e in c.events && e.payload.CircleCreated? ==> e.contractId == FACTORY && e.payload.circle in c.circles)
  }

  /** Every event comes from the platform or an existing circle, and only existing circles are announced. */
  lemma {:induction false} RunAccountable(h: seq<Submitted>)
    ensures Accountable(Run(h))
  {
    if h != [] {
      var n := |h| - 1;
      RunAccountable(h[..n]);
      var before, s := Run(h[..n]), h[n];
      if Execute(before.circles, s).Some? {
        PayloadsConcern(before.circles, s);
        var p := Execute(before.circles, s).value.events;
        var added := Stamp(p, s, |before.events|);
        assert Run(h).events == before.events + added;
        forall e | e in added ensures e.contractId in PLATFORM || e.contractId == s.tx.addr {
          var i :| 0 <= i < |added| && added[i] == e;
        }
        forall e | e in added && e.payload.CircleCreated? ensures e.contractId == FACTORY && e.payload.circle == s.tx.addr {
          var i :| 0 <= i < |added| && added[i] == e;
          assert p[i] in p;
        }
      }
    }
  }

  /** Every circle was announced, and none has a platform contract's address. */
  lemma {:induction false} RunAnnounced(h: seq<Submitted>, a: Address)
    requires a in Run(h).circles
    ensures HasCreation(Run(h).events, a) && a !in PLATFORM
  {
    var n := |h| - 1;
    var before, s := Run(h[..n]), h[n];
    if a in before.circles {
      RunAnnounced(h[..n], a);
      var e :| e in before.events && e.payload.CircleCreated? && e.payload.circle == a;
      assert e in Run(h).events;
    } else {
      var p := Execute(before.circles, s).value.events;
      var added := Stamp(p, s, |before.events|);
      assert s.tx.Create? && p[|p| - 1].CircleCreated?;
      assert added[|p| - 1] in Run(h).events;
    }
  }

  /** The events up to a ledger are the events of the transactions up to it. */
  lemma {:induction false} EventAsOf(h: seq<Submitted>, n: nat, e: Event)
    requires World.Ordered(h)
    ensures e in Run(AsOf(h, n)).events <==> e in Run(h).events && e.ledger <= n
  {
    RunNumbered(h);
    if h == [] || h[|h| - 1].ledger <= n {
      if e in Run(h).events {
        assert FromTx(e, h);
      }
    } else {
      EventAsOf(h[..|h| - 1], n, e);
    }
  }

  lemma {:induction false} HistoryCovered(h: seq<Submitted>, n: nat, to: nat, t: Tables, existing: seq<Address>)
    requires World.Ordered(h) && n <= to && Reflects(Run(AsOf(h, n)).circles, t)
    requires forall a :: a in existing <==> a in t.circles
    ensures Covered(Run(h).events, existing, n + 1, to)
  {
    forall e | e in Run(h).events && n + 1 <= e.ledger <= to
      ensures e.contractId in PLATFORM || e.contractId in existing || Announced(Run(h).events, e.contractId, n + 1, to)
    {
      KnownOrAnnounced(h, n, to, t, existing, e);
    }
    RunAccountable(h);
    forall e | e in Run(h).events && e.payload.CircleCreated? ensures e.contractId == FACTORY && e.payload.circle !in PLATFORM {
      RunAnnounced(h, e.payload.circle);
    }
    forall a | a in existing ensures a !in PLATFORM {
      ExistingCircle(Run(AsOf(h, n)).circles, t, a);
      RunAnnounced(AsOf(h, n), a);
    }
  }

  lemma {:induction false} ExistingCircle(w: Circles, t: Tables, a: Address)
    requires Reflects(w, t)
    ensures a in t.circles <==> a in w
  {
    if a !in w {
      assert Blank(a, t);
    } else {
      assert Mirrors(w[a], a, t);
    }
  }

  lemma {:induction false} KnownOrAnnounced(h: seq<Submitted>, n: nat, to: nat, t: Tables, existing: seq<Address>, e: Event)
    requires World.Ordered(h) && n <= to && Reflects(Run(AsOf(h, n)).circles, t)
    requires forall a :: a in existing <==> a in t.circles
    requires e in Run(h).events && n + 1 <= e.ledger <= to
    ensures e.contractId in PLATFORM || e.contractId in existing || Announced(Run(h).events, e.contractId, n + 1, to)
  {
    var a := e.contractId;
    EventAsOf(h, to, e);
    RunAccountable(AsOf(h, to));
    if a !in PLATFORM && a !in existing {
      ExistingCircle(Run(AsOf(h, n)).circles, t, a);
      RunAnnounced(AsOf(h, to), a);
      var c :| c in Run(AsOf(h, to)).events && c.payload.CircleCreated? && c.payload.circle == a;
      EventAsOf(h, to, c);
      EventAsOf(h, n, c);
      RunAccountable(AsOf(h, n));
    }
  }

  /** An indexer with the projection's handlers that started empty and ingests the routed events of a history. */
  ghost predicate Follows(ix: Ingest.Indexer<Tables>, h: seq<Submitted>)
    reads ix
  {
    && World.Ordered(h) && ix.Valid()
    && ix.h == HANDLER && ix.init == Ingest.Core(EMPTY_TABLES, {}) && ix.chain == Routed(Run(h).events)
  }

  /** The circles that have a row. */
  ghost predicate KnownCircles(ix: Ingest.Indexer<Tables>, existing: seq<Address>)
    reads ix
  {
    Distinct(existing) && forall a :: a in existing <==> a in ix.db.core.rows.circles
  }

  /** At every durable state, the rows reflect the contracts as of the ledger the next poll resumes after. */
  lemma {:induction false} ResumeReflects(ix: Ingest.Indexer<Tables>, h: seq<Submitted>, i: nat, db: Ingest.Db<Tables>, last: nat)
    requires Follows(ix, h) && i < |ix.log| && db == ix.log[i] && last == Ingest.ResumeAfter(db.cursor, ix.startLedger)
    ensures Reflects(Run(AsOf(h, last)).circles, db.core.rows)
  {
    var past := AsOf(h, last);
    RunNoClash(h);
    Durability.DistinctNeverClash(HANDLER, EMPTY_TABLES, ix.chain, Ingest.Cut(ix.chain, db.cursor));
    Durability.CrashRefinement(ix, i);
    Ingest.StartCut(ix.chain, ix.startLedger, db.cursor);
    EventsAsOf(h, last);
    HistoryReflected(past);
    ReplayIsFold(EMPTY_TABLES, Run(past).events);
  }

  lemma {:induction false} ChainShape(h: seq<Submitted>)
    requires World.Ordered(h)
    ensures Ingest.Ordered(Run(h).events)
    ensures Positioned(Run(h).events)
  {
    RunOrdered(h);
    RunNumbered(h);
  }

  lemma {:induction false} PollCovered(ix: Ingest.Indexer<Tables>, h: seq<Submitted>, existing: seq<Address>, last: nat, end: nat)
    requires Follows(ix, h) && KnownCircles(ix, existing)
    requires last == Ingest.ResumeAfter(ix.db.cursor, ix.startLedger) && last <= end
    ensures Covered(Run(h).events, existing, last + 1, end)
  {
    ResumeReflects(ix, h, |ix.log| - 1, ix.db, last);
    HistoryCovered(h, last, end, ix.db.core.rows, existing);
  }

  /**
   * The fetch of a poll whose database stands at any durable state returns, against an honest RPC, exactly
   * what `Ingest.Indexer.RunPollCycle` relies on, unless it reports an error for which there is a reason.
   */
  method FetchForPoll(ix: Ingest.Indexer<Tables>, ghost h: seq<Submitted>, rpc: Rpc, stops: nat -> bool,
                      existing: seq<Address>, last: nat, end: nat, limit: nat, maxPages: nat, maxEvents: nat)
    returns (f: Ingest.Fetched)
    requires Follows(ix, h) && KnownCircles(ix, existing) && limit > 0
    requires last == Ingest.ResumeAfter(ix.db.cursor, ix.startLedger) && last < end
    requires HonestRpc(rpc, Run(h).events, last + 1, limit, end)
    ensures f.Items? ==> f.items == Ingest.Slice(ix.chain, last, end)
    ensures f.BudgetExceeded? ==> !Fits(Run(h).events, last + 1, end, limit, maxPages, maxEvents)
    ensures ServesRpc(rpc, end) && NeverStops(stops) ==> !f.FetchError?
  {
    PollCovered(ix, h, existing, last, end);
    ChainShape(h);
    f := DiscoverAfter(rpc, stops, existing, last, last + 1, end, limit, maxPages, maxEvents, Run(h).events);
  }

  /** The range is no shorter than half of one that does not fit. */
  ghost predicate HalvesUnfit(chain: seq<Event>, from: nat, end: nat, to: nat, limit: nat, maxPages: nat, maxEvents: nat)
    requires 0 < from <= end
  {
    exists unfit :: end < unfit <= to && unfit - from <= 2 * (end - from) + 2
      && !Fits(chain, from, unfit, limit, maxPages, maxEvents)
  }

  /** The fetch for ever shorter ranges, until one fits the budget or is as short as can be. */
  method FetchShrinking(ix: Ingest.Indexer<Tables>, ghost h: seq<Submitted>, rpcs: nat -> Rpc, stops: nat -> bool,
                        existing: seq<Address>, last: nat, to: nat, limit: nat, maxPages: nat, maxEvents: nat)
    returns (f: Ingest.Fetched, end: nat)
    requires Follows(ix, h) && KnownCircles(ix, existing) && limit > 0
    requires last == Ingest.ResumeAfter(ix.db.cursor, ix.startLedger) && last < to
    requires forall end :: HonestRpc(rpcs(end), Run(h).events, last + 1, limit, end)
    ensures last < end <= to
    ensures f.Items? ==> f.items == Ingest.Slice(ix.chain, last, end)
    ensures end < to ==> HalvesUnfit(Run(h).events, last + 1, end, to, limit, maxPages, maxEvents)
    ensures f.BudgetExceeded? ==> end == last + 1 && !Fits(Run(h).events, last + 1, end, limit, maxPages, maxEvents)
    ensures (forall end :: ServesRpc(rpcs(end), end)) && NeverStops(stops) ==> !f.FetchError?
  {
    end := to;
    while true
      invariant last < end <= to
      invariant end < to ==> HalvesUnfit(Run(h).events, last + 1, end, to, limit, maxPages, maxEvents)
      decreases end - last
    {
      f := FetchForPoll(ix, h, rpcs(end), stops, existing, last, end, limit, maxPages, maxEvents);
      if !f.BudgetExceeded? || end <= last + 1 {
        return;
      }
      end := Ingest.Halved(last, end);
    }
  }

  /**
   * One poll of the indexer against an honest RPC: fetch a range that fits the budget, then commit its ledgers.
   * Every durable state stays in step with the history, success leaves the cursor at the end of the fetched
   * range, which is shorter than asked for only when one at most twice as long does not fit, and a poll is
   * blocked only by a single ledger that does not fit, which changes nothing.  If the RPC serves every request
   * and nothing disturbs the fetch or the commits, a poll succeeds unless it is blocked.
   */
  method PollRpc(ix: Ingest.Indexer<Tables>, ghost h: seq<Submitted>, rpcs: nat -> Rpc, stops: nat -> bool,
                 existing: seq<Address>, head: nat, limit: nat, maxPages: nat, maxEvents: nat, c: Ingest.Conditions)
    returns (r: Ingest.PollResult, blocked: bool)
    requires Follows(ix, h) && KnownCircles(ix, existing) && limit > 0
    requires forall end :: HonestRpc(rpcs(end), Run(h).events, Ingest.ResumeAfter(ix.db.cursor, ix.startLedger) + 1, limit, end)
    modifies ix`db, ix`log, ix`steps
    ensures Follows(ix, h) && old(ix.log) <= ix.log && old(ix.db.cursor) <= ix.db.cursor
    ensures var last := Ingest.ResumeAfter(old(ix.db.cursor), ix.startLedger);
            var to := Ingest.BatchEnd(last + 1, head, ix.maxLedgers);
            && (r.Polled? && last < to ==>
                  && ix.db.cursor == r.end && last < r.end <= to
                  && (r.end < to ==> HalvesUnfit(Run(h).events, last + 1, r.end, to, limit, maxPages, maxEvents)))
            && (last >= to ==> ix.db == old(ix.db) && r == if last > 0 && to < last then Ingest.PollFailed else Ingest.Polled(last))
            && (blocked ==>
                  && r.PollFailed? && last < to && ix.db == old(ix.db)
                  && !Fits(Run(h).events, last + 1, last + 1, limit, maxPages, maxEvents))
            && (last < to && (forall end :: ServesRpc(rpcs(end), end)) && NeverStops(stops) && Ingest.Undisturbed(c) ==>
                  r.Polled? || blocked)
  {
    var last := Ingest.ResumeAfter(ix.db.cursor, ix.startLedger);
    var to := Ingest.BatchEnd(last + 1, head, ix.maxLedgers);
    if last > 0 && to < last {
      return Ingest.PollFailed, false;
    }
    if to <= last {
      return Ingest.Polled(last), false;
    }
    var f, end := FetchShrinking(ix, h, rpcs, stops, existing, last, to, limit, maxPages, maxEvents);
    if !f.Items? {
      return Ingest.PollFailed, f.BudgetExceeded?;
    }
    var ok := ix.ProcessFetched(last, end, f.items, c);
    return if ok then Ingest.Polled(end) else Ingest.PollFailed, false;
  }

  method DiscoverAfter(rpc: Rpc, stops: nat -> bool, existing: seq<Address>, last: nat, from: nat, to: nat, limit: nat,
                       maxPages: nat, maxEvents: nat, ghost chain: seq<Event>)
    returns (f: Ingest.Fetched)
    requires last < to && limit > 0 && Distinct(existing) && from == last + 1
    requires Ingest.Ordered(chain) && Positioned(chain)
    requires HonestRpc(rpc, chain, from, limit, to) && Covered(chain, existing, from, to)
    ensures f.Items? ==> ExactlyRouted(f.items, chain, last, to)
    ensures f.BudgetExceeded? ==> !Fits(chain, from, to, limit, maxPages, maxEvents)
    ensures ServesRpc(rpc, to) && NeverStops(stops) ==> !f.FetchError?
  {
    f := Discover(rpc, stops, existing, from, to, limit, maxPages, maxEvents, chain);
  }
}
