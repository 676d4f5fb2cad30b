/** Page-by-page event fetching over an RPC that may fail, lag, or lie. */
module Fetch {
  import opened Prelude
  import opened Events
  import Ingest

  datatype Token = Opaque(text: nat) | LastEvent(id: EventId)

  /** What one page request finally came to, after its own retries. */
  datatype Reply = NoReply | Page(latest: Option<nat>, events: seq<Event>, cursor: Option<Token>)

  datatype FetchResult = Fetched(events: seq<Event>) | OverBudget | Broken

  /** How the RPC answers: attempt number and the continuation asked for, `None` for the start of the range. */
  type Pager = (nat, Option<Token>) -> Reply

  /** At most `limit` elements from place `lo` on. */
  function Stretch(s: seq<Event>, lo: nat, limit: nat): seq<Event> {
    s[Min(lo, |s|)..Min(lo + limit, |s|)]
  }

  /**
   * An RPC that pages one ledger-ordered sequence of matching events.  Its view may grow between
   * requests; a view that reports at least ledger `to`, or reports none, holds all events up to `to`.
   * A token stands for the place after the page that it was given with.
   */
  ghost predicate Honest(rpc: Pager, matching: seq<Event>, limit: nat, to: nat) {
    exists place: Token -> nat :: Places(rpc, place, matching, limit, to)
  }

  ghost predicate Places(rpc: Pager, place: Token -> nat, matching: seq<Event>, limit: nat, to: nat) {
    forall k, cursor :: rpc(k, cursor).Page? ==> Continues(rpc(k, cursor), place, PlaceOf(place, cursor), matching, limit, to)
  }

  function PlaceOf(place: Token -> nat, cursor: Option<Token>): nat {
    if cursor.Some? then place(cursor.value) else 0
  }

  ghost predicate Continues(reply: Reply, place: Token -> nat, lo: nat, matching: seq<Event>, limit: nat, to: nat)
    requires reply.Page?
  {
    && PageOf(reply, matching, lo, limit, to)
    && (reply.events != [] ==> place(NextToken(reply)) == lo + |reply.events|)
  }

  ghost predicate PageOf(reply: Reply, matching: seq<Event>, lo: nat, limit: nat, to: nat)
    requires reply.Page?
  {
    exists visible :: 0 <= visible <= |matching|
      && reply.events == Stretch(matching[..visible], lo, limit)
      && (reply.latest.None? || reply.latest.value >= to ==> visible >= Ingest.Cut(matching, to))
  }

  /** The requests of a fetch that goes on: each asks to continue where the page before it says. */
  function CursorAt(rpc: Pager, k: nat): Option<Token> {
    if k == 0 then None else NextCursor(rpc(k - 1, CursorAt(rpc, k - 1)))
  }

  function NextCursor(reply: Reply): Option<Token> {
    if reply.Page? && reply.events != [] then Some(NextToken(reply)) else None
  }

  /** The answers to them. */
  function Answers(rpc: Pager): nat -> Reply {
    (k: nat) => rpc(k, CursorAt(rpc, k))
  }

  lemma {:induction false} AnswersTo(rpc: Pager, k: nat, cursor: Option<Token>)
    requires cursor == CursorAt(rpc, k)
    ensures Answers(rpc)(k) == rpc(k, cursor) && CursorAt(rpc, k + 1) == NextCursor(rpc(k, cursor))
  {
  }

  /** Ledgers in range and non-decreasing within a page. */
  predicate PageInOrder(events: seq<Event>, from: nat) {
    forall i :: 0 <= i < |events| ==> from <= events[i].ledger && (i > 0 ==> events[i - 1].ledger <= events[i].ledger)
  }

  /** The whole page is ledger-ordered and none of it lies before the range. */
  ghost predicate InSpan(events: seq<Event>, from: nat) {
    Ingest.Ordered(events) && forall i :: 0 <= i < |events| ==> from <= events[i].ledger
  }

  /** Comparing neighbours is enough. */
  lemma {:induction false} PageInOrderExactly(events: seq<Event>, from: nat)
    ensures PageInOrder(events, from) <==> InSpan(events, from)
  {
    if PageInOrder(events, from) {
      NeighboursOrder(events, from);
    }
  }

  lemma {:induction false} NeighboursOrder(events: seq<Event>, from: nat)
    requires PageInOrder(events, from)
    ensures Ingest.Ordered(events)
  {
    if |events| > 1 {
      var n := |events| - 1;
      NeighboursOrder(events[..n], from);
      forall i | 0 <= i < n ensures events[i].ledger <= events[n].ledger {
        assert events[..n][i].ledger <= events[..n][n - 1].ledger;
      }
    }
  }

  /** A page to go on with: the server holds the whole range, as far as it says, and the events are in order. */
  ghost predicate Good(reply: Reply, from: nat, to: nat) {
    reply.Page? && (reply.latest.Some? ==> reply.latest.value >= to) && InSpan(reply.events, from)
  }

  /** Nothing up to `to` can follow the page. */
  ghost predicate Last(reply: Reply, to: nat, limit: nat)
    requires reply.Page?
  {
    |reply.events| < limit || Overshoots(reply.events, to)
  }

  /** Where the request for the next page would start. */
  function NextToken(reply: Reply): Token
    requires reply.Page? && reply.events != []
  {
    if reply.cursor.Some? then reply.cursor.value else LastEvent(IdOf(reply.events[|reply.events| - 1]))
  }

  /** The second page's continuation is the first one's: given as the same cursor, or as the same last event. */
  ghost predicate Stalled(a: Reply, b: Reply) {
    && a.Page? && b.Page? && a.events != [] && b.events != []
    && (match (a.cursor, b.cursor)
        case (Some(s), Some(t)) => s == t
        case (None, None) => IdOf(a.events[|a.events| - 1]) == IdOf(b.events[|b.events| - 1])
        case (Some(s), None) => s == LastEvent(IdOf(b.events[|b.events| - 1]))
        case (None, Some(t)) => t == LastEvent(IdOf(a.events[|a.events| - 1])))
  }

  /** After page `k` the fetch goes on. */
  ghost predicate GoesOn(replies: nat -> Reply, stops: nat -> bool, k: nat, from: nat, to: nat, limit: nat) {
    && !stops(k) && Good(replies(k), from, to) && !Last(replies(k), to, limit)
    && (k > 0 ==> !Stalled(replies(k - 1), replies(k)))
  }

  /** It did so after each of the first `n` pages. */
  ghost predicate WentOn(replies: nat -> Reply, stops: nat -> bool, n: nat, from: nat, to: nat, limit: nat) {
    n > 0 ==> WentOn(replies, stops, n - 1, from, to, limit) && GoesOn(replies, stops, n - 1, from, to, limit)
  }

  /** Page `k` is a reason to give up: a stop request, a bad page, or no progress. */
  ghost predicate GivesUp(replies: nat -> Reply, stops: nat -> bool, k: nat, from: nat, to: nat) {
    || stops(k) || !Good(replies(k), from, to)
    || (k > 0 && Stalled(replies(k - 1), replies(k)))
  }

  /** The events up to `to` of the first `n` pages, in order. */
  ghost function Gathered(replies: nat -> Reply, n: nat, to: nat): seq<Event> {
    if n == 0 then []
    else Gathered(replies, n - 1, to) + if replies(n - 1).Page? then UpTo(replies(n - 1).events, to) else []
  }

  /** A server that answers every request with a page, and holds the whole range, as far as it says. */
  ghost predicate Serves(rpc: Pager, to: nat) {
    forall k, cursor :: Serving(rpc(k, cursor), to)
  }

  ghost predicate Serving(reply: Reply, to: nat) {
    reply.Page? && (reply.latest.Some? ==> reply.latest.value >= to)
  }

  ghost predicate NeverStops(stops: nat -> bool) {
    forall k :: !stops(k)
  }

  /** Some event lies past the ledger. */
  ghost predicate Overshoots(events: seq<Event>, to: nat) {
    exists e :: e in events && e.ledger > to
  }

  /** Keep the page's events up to `to`; stop as soon as one more would exceed the budget. */
  method TakePage(all: seq<Event>, events: seq<Event>, to: nat, maxEvents: nat)
    returns (taken: Option<seq<Event>>, beyond: bool)
    requires |all| <= maxEvents
    ensures taken.None? <==> |all| + |UpTo(events, to)| > maxEvents
    ensures taken.Some? ==> taken.value == all + UpTo(events, to)
    ensures taken.Some? ==> (beyond <==> Overshoots(events, to))
  {
    var kept := all;
    beyond := false;
    for i := 0 to |events|
      invariant kept == all + UpTo(events[..i], to) && |kept| <= maxEvents
      invariant beyond <==> Overshoots(events[..i], to)
    {
      assert events[..i + 1][..i] == events[..i];
      UpToGrows(events, i, to);
      if events[i].ledger <= to {
        if |kept| >= maxEvents {
          return None, beyond;
        }
        kept := kept + [events[i]];
      } else {
        assert events[i] in events[..i + 1];
        beyond := true;
      }
      assert events[..i + 1] == events[..i] + [events[i]];
    }
    assert events[..|events|] == events;
    return Some(kept), beyond;
  }

  function UpTo(events: seq<Event>, to: nat): seq<Event> {
    if events == [] then []
    else UpTo(events[..|events| - 1], to) + if events[|events| - 1].ledger <= to then [events[|events| - 1]] else []
  }

  lemma {:induction false} UpToGrows(events: seq<Event>, i: nat, to: nat)
    requires i < |events|
    ensures |UpTo(events[..i], to)| + (if events[i].ledger <= to then 1 else 0) <= |UpTo(events, to)|
    decreases |events|
  {
    var n := |events| - 1;
    if i < n {
      assert events[..n][..i] == events[..i];
      UpToGrows(events[..n], i, to);
    }
  }

  lemma {:induction false} UpToKeeps(events: seq<Event>, to: nat)
    ensures forall e :: e in UpTo(events, to) <==> e in events && e.ledger <= to
    ensures (forall e :: e in events ==> e.ledger <= to) ==> UpTo(events, to) == events
    ensures (forall e :: e in events ==> e.ledger > to) ==> UpTo(events, to) == []
  {
    if events != [] {
      UpToKeeps(events[..|events| - 1], to);
      assert events == events[..|events| - 1] + [events[|events| - 1]];
    }
  }

  lemma {:induction false} UpToAppend(a: seq<Event>, b: seq<Event>, to: nat)
    ensures UpTo(a + b, to) == UpTo(a, to) + UpTo(b, to)
  {
    if b == [] {
      assert a + b == a;
    } else {
      assert (a + b)[..|a + b| - 1] == a + b[..|b| - 1];
      UpToAppend(a, b[..|b| - 1], to);
    }
  }

  /** Of an ordered sequence, the events up to a ledger are a prefix. */
  lemma {:induction false} UpToIsPrefix(events: seq<Event>, to: nat)
    requires Ingest.Ordered(events)
    ensures UpTo(events, to) == events[..Ingest.Cut(events, to)]
  {
    assert events[0..|events|] == events;
    if Ingest.Cut(events, to) < |events| {
      WindowAcross(events, 0, |events|, to);
    } else {
      WindowWithin(events, 0, |events|, to);
    }
  }

  datatype PageStep = Finished(events: seq<Event>) | More(events: seq<Event>) | Exceeded | Rejected

  /** What the fetch comes to when a page ends it. */
  function Ended(step: PageStep): FetchResult
    requires !step.More?
  {
    match step
    case Finished(events) => Fetched(events)
    case Exceeded => OverBudget
    case Rejected => Broken
  }

  /** Check one page and add it to what has been fetched. */
  method AddPage(all: seq<Event>, reply: Reply, from: nat, to: nat, limit: nat, maxEvents: nat)
    returns (step: PageStep)
    requires limit > 0 && |all| <= maxEvents
    ensures step.Rejected? <==> !Good(reply, from, to)
    ensures step.Exceeded? <==> Good(reply, from, to) && |all| + |UpTo(reply.events, to)| > maxEvents
    ensures step.Finished? || step.More? ==> step.events == all + UpTo(reply.events, to)
    ensures step.Finished? || step.More? ==> (step.Finished? <==> Last(reply, to, limit))
  {
    if reply.NoReply? {
      return Rejected;
    }
    if reply.latest.Some? && reply.latest.value < to {
      return Rejected;
    }
    PageInOrderExactly(reply.events, from);
    if !PageInOrder(reply.events, from) {
      return Rejected;
    }
    if reply.events == [] {
      return Finished(all);
    }
    var taken, beyond := TakePage(all, reply.events, to, maxEvents);
    if taken.None? {
      return Exceeded;
    }
    return if beyond || |reply.events| < limit then Finished(taken.value) else More(taken.value);
  }

  /** A list is what the pages held up to `to`: all but the last one full, all in order and making progress. */
  ghost predicate Complete(replies: nat -> Reply, stops: nat -> bool, from: nat, to: nat, limit: nat, events: seq<Event>, pages: nat) {
    && pages > 0 && !stops(pages - 1) && Good(replies(pages - 1), from, to) && Last(replies(pages - 1), to, limit)
    && events == Gathered(replies, pages, to)
  }

  /** What a fetch comes to after so many pages; each failure has its reason. */
  ghost predicate Outcome(replies: nat -> Reply, stops: nat -> bool, from: nat, to: nat, limit: nat, maxPages: nat, maxEvents: nat,
                          r: FetchResult, pages: nat) {
    && pages <= maxPages
    && (pages > 0 ==> WentOn(replies, stops, pages - 1, from, to, limit))
    && match r
       case Fetched(events) => Complete(replies, stops, from, to, limit, events, pages) && |events| <= maxEvents
       case Broken => (pages > 0 && GivesUp(replies, stops, pages - 1, from, to)) || stops(pages)
       case OverBudget =>
         || (pages > 0 && Good(replies(pages - 1), from, to) && |Gathered(replies, pages, to)| > maxEvents)
         || (pages == maxPages && (pages > 0 ==> GoesOn(replies, stops, pages - 1, from, to, limit)))
  }

  /** Request page after page until one is the last, or there is a reason to give up or a budget is blown. */
  method FetchPages(rpc: Pager, stops: nat -> bool, from: nat, to: nat, limit: nat, maxPages: nat, maxEvents: nat,
                    ghost replies: nat -> Reply)
    returns (r: FetchResult, pages: nat)
    requires limit > 0 && replies == Answers(rpc)
    ensures Outcome(replies, stops, from, to, limit, maxPages, maxEvents, r, pages)
  {
    var all: seq<Event> := [];
    var cursor, previous: Option<Token> := None, None;
    pages := 0;
    while pages < maxPages
      invariant pages <= maxPages && |all| <= maxEvents && all == Gathered(replies, pages, to)
      invariant WentOn(replies, stops, pages, from, to, limit)
      invariant pages > 0 ==> replies(pages - 1).Page? && replies(pages - 1).events != []
      invariant pages > 0 ==> cursor == Some(NextToken(replies(pages - 1)))
      invariant previous == cursor == CursorAt(rpc, pages) && (pages == 0 ==> cursor == None)
    {
      if stops(pages) {
        return Broken, pages;
      }
      var reply := rpc(pages, cursor);
      AnswersTo(rpc, pages, cursor);
      var step := AddPage(all, reply, from, to, limit, maxEvents);
      pages := pages + 1;
      if !step.More? {
        return Ended(step), pages;
      }
      all := step.events;
      var next := Some(NextToken(reply));
      if next == previous {
        return Broken, pages;
      }
      previous := next;
      cursor := next;
    }
    return OverBudget, pages;
  }

  /** A list stays in the range. */
  lemma {:induction false} GatheredInRange(replies: nat -> Reply, stops: nat -> bool, n: nat, from: nat, to: nat, limit: nat, e: Event)
    requires n > 0
    requires e in Gathered(replies, n, to) && WentOn(replies, stops, n - 1, from, to, limit) && Good(replies(n - 1), from, to)
    ensures from <= e.ledger <= to
  {
    var before, page := Gathered(replies, n - 1, to), replies(n - 1);
    assert e in before + UpTo(page.events, to);
    if e in before {
      GatheredInRange(replies, stops, n - 1, from, to, limit, e);
    } else {
      PageInRange(page.events, from, to, e);
    }
  }

  lemma {:induction false} PageInRange(events: seq<Event>, from: nat, to: nat, e: Event)
    requires InSpan(events, from) && e in UpTo(events, to)
    ensures from <= e.ledger <= to
  {
    UpToKeeps(events, to);
  }

  /** The place after the first `n` pages. */
  ghost function Reached(replies: nat -> Reply, place: Token -> nat, n: nat): nat {
    if n == 0 then 0 else PlaceOf(place, NextCursor(replies(n - 1)))
  }

  ghost predicate PlacedAt(replies: nat -> Reply, place: Token -> nat, matching: seq<Event>, limit: nat, to: nat, k: nat) {
    replies(k).Page? ==> Continues(replies(k), place, Reached(replies, place, k), matching, limit, to)
  }

  ghost predicate Placed(replies: nat -> Reply, place: Token -> nat, matching: seq<Event>, limit: nat, to: nat) {
    forall k :: PlacedAt(replies, place, matching, limit, to, k)
  }

  lemma {:induction false} HonestAt(rpc: Pager, place: Token -> nat, matching: seq<Event>, limit: nat, to: nat, k: nat)
    requires Places(rpc, place, matching, limit, to)
    ensures PlacedAt(Answers(rpc), place, matching, limit, to, k)
  {
    ReachedIs(rpc, place, k);
    AnswersTo(rpc, k, CursorAt(rpc, k));
  }

  lemma {:induction false} ReachedIs(rpc: Pager, place: Token -> nat, n: nat)
    ensures Reached(Answers(rpc), place, n) == PlaceOf(place, CursorAt(rpc, n))
  {
    if n > 0 {
      AnswersTo(rpc, n - 1, CursorAt(rpc, n - 1));
    }
  }

  /** The answers page through what matches. */
  ghost predicate Paged(replies: nat -> Reply, matching: seq<Event>, limit: nat, to: nat) {
    exists place: Token -> nat :: Placed(replies, place, matching, limit, to)
  }

  lemma {:induction false} HonestPages(rpc: Pager, matching: seq<Event>, limit: nat, to: nat)
    requires Honest(rpc, matching, limit, to)
    ensures Paged(Answers(rpc), matching, limit, to)
  {
    var place: Token -> nat :| Places(rpc, place, matching, limit, to);
    forall k ensures PlacedAt(Answers(rpc), place, matching, limit, to, k) {
      HonestAt(rpc, place, matching, limit, to, k);
    }
    assert Placed(Answers(rpc), place, matching, limit, to);
  }

  /** The pages an honest server gives before the last one are a prefix of what matches. */
  lemma {:induction false} GatheredPrefix(replies: nat -> Reply, place: Token -> nat, stops: nat -> bool, matching: seq<Event>, n: nat,
                                          from: nat, to: nat, limit: nat) returns (lo: nat)
    requires limit > 0 && Ingest.Ordered(matching) && Placed(replies, place, matching, limit, to)
    requires WentOn(replies, stops, n, from, to, limit)
    ensures lo == Reached(replies, place, n) && lo == n * limit
    ensures lo <= Ingest.Cut(matching, to) && Gathered(replies, n, to) == matching[..lo]
  {
    lo := 0;
    if n > 0 {
      var before := GatheredPrefix(replies, place, stops, matching, n - 1, from, to, limit);
      assert PlacedAt(replies, place, matching, limit, to, n - 1);
      lo := FullPage(replies(n - 1), place, matching, before, from, to, limit);
      TimesNext(n - 1, limit);
    }
  }

  lemma {:induction false} TimesNext(n: nat, limit: nat)
    ensures (n + 1) * limit == n * limit + limit
  {
  }

  /** A page that is not the last brings the next `limit` events, and continues after them. */
  lemma {:induction false} FullPage(reply: Reply, place: Token -> nat, matching: seq<Event>, lo: nat, from: nat, to: nat, limit: nat)
    returns (next: nat)
    requires limit > 0 && Ingest.Ordered(matching) && lo <= Ingest.Cut(matching, to)
    requires Good(reply, from, to) && !Last(reply, to, limit) && Continues(reply, place, lo, matching, limit, to)
    ensures next == lo + limit == PlaceOf(place, NextCursor(reply)) && next <= Ingest.Cut(matching, to)
    ensures matching[..lo] + UpTo(reply.events, to) == matching[..next]
  {
    PageGives(reply, matching, lo, limit, to);
    next := lo + limit;
  }

  /** A server that answers with windows of what matches answers with pages in order. */
  lemma {:induction false} WindowInSpan(reply: Reply, matching: seq<Event>, lo: nat, limit: nat, from: nat, to: nat)
    requires reply.Page? && PageOf(reply, matching, lo, limit, to) && InSpan(matching, from)
    ensures InSpan(reply.events, from)
  {
    var visible :| 0 <= visible <= |matching| && reply.events == Stretch(matching[..visible], lo, limit);
    WindowKeepsSpan(matching, visible, Min(lo, visible), Min(lo + limit, visible), from);
  }

  lemma {:induction false} WindowKeepsSpan(matching: seq<Event>, visible: nat, lo: int, hi: int, from: nat)
    requires InSpan(matching, from) && 0 <= lo <= hi <= visible <= |matching|
    ensures InSpan(matching[..visible][lo..hi], from)
  {
  }

  lemma {:induction false} ServesGood(replies: nat -> Reply, place: Token -> nat, stops: nat -> bool, matching: seq<Event>, k: nat,
                                      from: nat, to: nat, limit: nat)
    requires PlacedAt(replies, place, matching, limit, to, k) && InSpan(matching, from) && NeverStops(stops)
    requires Serving(replies(k), to)
    ensures !GivesUp(replies, stops, k, from, to)
  {
    var reply, lo := replies(k), Reached(replies, place, k);
    WindowInSpan(reply, matching, lo, limit, from, to);
    if k > 0 {
      NotStalled(replies(k - 1), reply, place, lo);
    }
  }

  /** Tokens of an honest server move on with every event. */
  lemma {:induction false} NotStalled(before: Reply, reply: Reply, place: Token -> nat, lo: nat)
    requires lo == PlaceOf(place, NextCursor(before))
    requires reply.Page? && reply.events != [] ==> place(NextToken(reply)) == lo + |reply.events|
    ensures !Stalled(before, reply)
  {
  }

  /** What an outcome means when the server is honest. */
  lemma {:induction false} HonestOutcome(replies: nat -> Reply, stops: nat -> bool, from: nat, to: nat, limit: nat,
                                         maxPages: nat, maxEvents: nat, matching: seq<Event>, r: FetchResult, pages: nat)
    requires limit > 0 && Ingest.Ordered(matching) && Paged(replies, matching, limit, to)
    requires Outcome(replies, stops, from, to, limit, maxPages, maxEvents, r, pages)
    ensures r.Fetched? ==> r.events == matching[..Ingest.Cut(matching, to)]
    ensures r.OverBudget? ==> Ingest.Cut(matching, to) > maxEvents || Ingest.Cut(matching, to) >= maxPages * limit
  {
    if pages > 0 && Good(replies(pages - 1), from, to) {
      var place: Token -> nat :| Placed(replies, place, matching, limit, to);
      NextPageGives(replies, place, stops, matching, pages - 1, from, to, limit, pages * limit);
    }
  }

  lemma {:induction false} NextPageGives(replies: nat -> Reply, place: Token -> nat, stops: nat -> bool, matching: seq<Event>, n: nat,
                                         from: nat, to: nat, limit: nat, held: nat)
    requires limit > 0 && Ingest.Ordered(matching) && Placed(replies, place, matching, limit, to)
    requires WentOn(replies, stops, n, from, to, limit) && Good(replies(n), from, to) && held == (n + 1) * limit
    ensures |Gathered(replies, n + 1, to)| <= Ingest.Cut(matching, to)
    ensures if Last(replies(n), to, limit) then Gathered(replies, n + 1, to) == matching[..Ingest.Cut(matching, to)]
            else held <= Ingest.Cut(matching, to)
  {
    var lo := GatheredPrefix(replies, place, stops, matching, n, from, to, limit);
    assert PlacedAt(replies, place, matching, limit, to, n);
    TimesNext(n, limit);
    PageGives(replies(n), matching, lo, limit, to);
  }

  /**
   * Fetch everything in ledgers from..to, or throw.  Against any RPC the outcome is that of its pages, and a
   * returned list stays in range.  Against an honest one it is exactly the matching events up to `to`, in
   * order and each once, and a budget error means the range really exceeds a budget; so a fetch within its
   * budgets succeeds if every request is served and nobody asks to stop.
   */
  method FetchAll(rpc: Pager, stops: nat -> bool, from: nat, to: nat, limit: nat,
                  maxPages: nat, maxEvents: nat, ghost matching: seq<Event>)
    returns (r: FetchResult, pages: nat)
    requires limit > 0 && Ingest.Ordered(matching)
    ensures Outcome(Answers(rpc), stops, from, to, limit, maxPages, maxEvents, r, pages)
    ensures r.Fetched? ==> |r.events| <= maxEvents && forall e :: e in r.events ==> from <= e.ledger <= to
    ensures Honest(rpc, matching, limit, to) ==>
      var cut := Ingest.Cut(matching, to);
      && (r.Fetched? ==> r.events == matching[..cut])
      && (r.OverBudget? ==> cut > maxEvents || cut >= maxPages * limit)
      && (InSpan(matching, from) && Serves(rpc, to) && NeverStops(stops) ==> !r.Broken?)
  {
    ghost var replies := Answers(rpc);
    r, pages := FetchPages(rpc, stops, from, to, limit, maxPages, maxEvents, replies);
    if r.Fetched? {
      forall e | e in r.events ensures from <= e.ledger <= to {
        GatheredInRange(replies, stops, pages, from, to, limit, e);
      }
    }
    if Honest(rpc, matching, limit, to) {
      HonestPages(rpc, matching, limit, to);
      HonestOutcome(replies, stops, from, to, limit, maxPages, maxEvents, matching, r, pages);
      if InSpan(matching, from) && Serves(rpc, to) && NeverStops(stops) && pages > 0 {
        ghost var place: Token -> nat :| Placed(replies, place, matching, limit, to);
        assert PlacedAt(replies, place, matching, limit, to, pages - 1);
        AnswersTo(rpc, pages - 1, CursorAt(rpc, pages - 1));
        assert Serving(rpc(pages - 1, CursorAt(rpc, pages - 1)), to);
        ServesGood(replies, place, stops, matching, pages - 1, from, to, limit);
      }
    }
  }

  /** An honest page continues the prefix; a short or overshooting page completes it. */
  lemma {:induction false} PageGives(reply: Reply, matching: seq<Event>, lo: nat, limit: nat, to: nat)
    requires limit > 0 && Ingest.Ordered(matching)
    requires reply.Page? && PageOf(reply, matching, lo, limit, to)
    requires reply.latest.None? || reply.latest.value >= to
    requires lo <= Ingest.Cut(matching, to)
    ensures var cut, kept := Ingest.Cut(matching, to), matching[..lo] + UpTo(reply.events, to);
            && |kept| <= cut && |reply.events| <= limit
            && (if |reply.events| < limit || Overshoots(reply.events, to) then
                  kept == matching[..cut]
                else
                  lo + limit <= cut && kept == matching[..lo + limit])
  {
    var hi := PageWindow(reply, matching, lo, limit, to);
    StretchGives(reply.events, matching, lo, hi, limit, to);
  }

  lemma {:induction false} StretchGives(events: seq<Event>, matching: seq<Event>, lo: nat, hi: nat, limit: nat, to: nat)
    requires limit > 0 && Ingest.Ordered(matching) && lo <= hi <= |matching| && hi <= lo + limit
    requires lo <= Ingest.Cut(matching, to) && events == matching[lo..hi]
    requires hi < lo + limit ==> hi >= Ingest.Cut(matching, to)
    ensures var cut, kept := Ingest.Cut(matching, to), matching[..lo] + UpTo(events, to);
            && |kept| <= cut
            && (if |events| < limit || Overshoots(events, to) then kept == matching[..cut]
                else lo + limit <= cut && kept == matching[..lo + limit])
  {
    WindowGives(matching, lo, hi, to);
  }

  lemma {:induction false} PageWindow(reply: Reply, matching: seq<Event>, lo: nat, limit: nat, to: nat) returns (hi: nat)
    requires limit > 0 && reply.Page? && PageOf(reply, matching, lo, limit, to)
    requires reply.latest.None? || reply.latest.value >= to
    requires lo <= Ingest.Cut(matching, to)
    ensures lo <= hi <= lo + limit && hi <= |matching|
    ensures reply.events == matching[lo..hi]
    ensures hi < lo + limit ==> hi >= Ingest.Cut(matching, to)
  {
    var visible :| 0 <= visible <= |matching|
      && reply.events == Stretch(matching[..visible], lo, limit)
      && (reply.latest.None? || reply.latest.value >= to ==> visible >= Ingest.Cut(matching, to));
    hi := VisibleWindow(matching, visible, lo, limit);
  }

  lemma {:induction false} VisibleWindow(matching: seq<Event>, visible: nat, lo: nat, limit: nat) returns (hi: nat)
    requires lo <= visible <= |matching|
    ensures lo <= hi <= lo + limit && hi <= visible && (hi < lo + limit ==> hi == visible)
    ensures matching[..visible][lo..Min(lo + limit, |matching[..visible]|)] == matching[lo..hi]
  {
    hi := Min(lo + limit, visible);
  }

  lemma {:induction false} WindowGives(matching: seq<Event>, lo: nat, hi: nat, to: nat)
    requires Ingest.Ordered(matching) && lo <= Ingest.Cut(matching, to) && lo <= hi <= |matching|
    ensures var cut, kept := Ingest.Cut(matching, to), matching[..lo] + UpTo(matching[lo..hi], to);
            && kept == matching[..if hi <= cut then hi else cut]
            && (Overshoots(matching[lo..hi], to) <==> hi > cut)
  {
    if hi <= Ingest.Cut(matching, to) {
      GivesWithin(matching, lo, hi, to);
    } else {
      GivesAcross(matching, lo, hi, to);
    }
  }

  lemma {:induction false} GivesWithin(matching: seq<Event>, lo: nat, hi: nat, to: nat)
    requires Ingest.Ordered(matching) && lo <= hi <= Ingest.Cut(matching, to)
    ensures matching[..lo] + UpTo(matching[lo..hi], to) == matching[..hi]
    ensures !Overshoots(matching[lo..hi], to)
  {
    WindowWithin(matching, lo, hi, to);
    assert matching[..lo] + matching[lo..hi] == matching[..hi];
  }

  lemma {:induction false} GivesAcross(matching: seq<Event>, lo: nat, hi: nat, to: nat)
    requires Ingest.Ordered(matching) && lo <= Ingest.Cut(matching, to) < hi <= |matching|
    ensures matching[..lo] + UpTo(matching[lo..hi], to) == matching[..Ingest.Cut(matching, to)]
    ensures Overshoots(matching[lo..hi], to)
  {
    var cut := Ingest.Cut(matching, to);
    WindowAcross(matching, lo, hi, to);
    assert matching[..lo] + matching[lo..cut] == matching[..cut];
    CutIsBeyond(matching, to);
    assert matching[cut] == matching[lo..hi][cut - lo];
  }

  lemma {:induction false} CutIsBeyond(matching: seq<Event>, to: nat)
    requires Ingest.Ordered(matching) && Ingest.Cut(matching, to) < |matching|
    ensures matching[Ingest.Cut(matching, to)].ledger > to
  {
    Ingest.CutSplits(matching, to);
  }

  lemma {:induction false} LedgersWithin(matching: seq<Event>, lo: nat, hi: nat, to: nat)
    requires Ingest.Ordered(matching) && lo <= hi <= Ingest.Cut(matching, to)
    ensures forall e :: e in matching[lo..hi] ==> e.ledger <= to
  {
    Ingest.CutSplits(matching, to);
    forall e | e in matching[lo..hi] ensures e.ledger <= to {
      var i :| 0 <= i < hi - lo && matching[lo..hi][i] == e;
      assert e == matching[lo + i];
    }
  }

  lemma {:induction false} LedgersBeyond(matching: seq<Event>, hi: nat, to: nat)
    requires Ingest.Ordered(matching) && Ingest.Cut(matching, to) <= hi <= |matching|
    ensures forall e :: e in matching[Ingest.Cut(matching, to)..hi] ==> e.ledger > to
  {
    Ingest.CutSplits(matching, to);
    var cut := Ingest.Cut(matching, to);
    forall e | e in matching[cut..hi] ensures e.ledger > to {
      var i :| 0 <= i < hi - cut && matching[cut..hi][i] == e;
      assert e == matching[cut + i];
    }
  }

  lemma {:induction false} WindowWithin(matching: seq<Event>, lo: nat, hi: nat, to: nat)
    requires Ingest.Ordered(matching) && lo <= hi <= Ingest.Cut(matching, to)
    ensures UpTo(matching[lo..hi], to) == matching[lo..hi]
    ensures forall e :: e in matching[lo..hi] ==> e.ledger <= to
  {
    LedgersWithin(matching, lo, hi, to);
    UpToKeeps(matching[lo..hi], to);
  }

  lemma {:induction false} WindowAcross(matching: seq<Event>, lo: nat, hi: nat, to: nat)
    requires Ingest.Ordered(matching) && lo <= Ingest.Cut(matching, to) < hi <= |matching|
    ensures UpTo(matching[lo..hi], to) == matching[lo..Ingest.Cut(matching, to)]
  {
    var cut := Ingest.Cut(matching, to);
    assert matching[lo..hi] == matching[lo..cut] + matching[cut..hi];
    UpToAppend(matching[lo..cut], matching[cut..hi], to);
    WindowWithin(matching, lo, cut, to);
    LedgersBeyond(matching, hi, to);
    UpToKeeps(matching[cut..hi], to);
  }
}
