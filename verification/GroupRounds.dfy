/** Grouping a circle's indexed rows into rounds. */
module GroupRounds {
  import opened Prelude
  import opened Sorting

  /** A row of any of the three tables: its round index and everything else. */
  datatype Row<T> = Row(round: int, data: T)

  datatype Status = Completed | Current | Cancelled | Open

  datatype CircleStatus = Pending | Active | CircleCompleted | CircleCancelled | Closed

  datatype Circle = Circle(currentRound: int, status: CircleStatus)

  datatype Group<P, C, D> = Group(
    round: int, status: Status, payout: Option<P>, contributions: seq<Row<C>>, defaults: seq<Row<D>>)

  datatype Result<P, C, D> = Result(
    rounds: seq<Group<P, C, D>>, currentRound: Option<Group<P, C, D>>, openRounds: seq<Group<P, C, D>>,
    pendingDefaults: seq<Row<D>>)

  // ----- The naive reading -----

  /** The rows of one round, in input order. */
  function Select<T>(rows: seq<Row<T>>, round: int): seq<Row<T>> {
    if rows == [] then []
    else Select(rows[..|rows| - 1], round) + if rows[|rows| - 1].round == round then [rows[|rows| - 1]] else []
  }

  predicate HasRound<T>(rows: seq<Row<T>>, round: int) {
    exists i :: 0 <= i < |rows| && rows[i].round == round
  }

  function FirstOf<T>(rows: seq<Row<T>>, round: int): Option<T> {
    if rows == [] then None
    else if FirstOf(rows[..|rows| - 1], round).Some? then FirstOf(rows[..|rows| - 1], round)
    else if rows[|rows| - 1].round == round then Some(rows[|rows| - 1].data) else None
  }

  function ResolveStatus(round: int, hasPayout: bool, circle: Circle): Status {
    if hasPayout then Completed
    else if round == circle.currentRound && circle.status.CircleCancelled? then Cancelled
    else if round == circle.currentRound && circle.status.Active? then Current
    else Open
  }

  function GroupOf<P, C, D>(circle: Circle, payouts: seq<Row<P>>, contributions: seq<Row<C>>, defaults: seq<Row<D>>,
                            round: int): Group<P, C, D> {
    var payout := FirstOf(payouts, round);
    Group(round, ResolveStatus(round, payout.Some?, circle), payout, Select(contributions, round), Select(defaults, round))
  }

  /** Every round any table mentions, and the round in progress. */
  predicate Known<P, C, D>(circle: Circle, payouts: seq<Row<P>>, contributions: seq<Row<C>>, defaults: seq<Row<D>>,
                           round: int) {
    || HasRound(payouts, round) || HasRound(contributions, round) || HasRound(defaults, round)
    || (InRound(circle) && round == circle.currentRound)
  }

  /** The circle is in a round that will be paid, or was when it was cancelled. */
  predicate InRound(circle: Circle) {
    circle.status.Active? || circle.status.CircleCancelled?
  }

  lemma {:induction false} FirstOfFinds<T>(rows: seq<Row<T>>, round: int)
    ensures FirstOf(rows, round).Some? <==> HasRound(rows, round)
  {
    if rows != [] {
      var init := rows[..|rows| - 1];
      FirstOfFinds(init, round);
      if HasRound(init, round) {
        var i :| 0 <= i < |init| && init[i].round == round;
        assert rows[i].round == round;
      }
    }
  }

  /** The payout a round is shown with is that of the first row of the round. */
  lemma {:induction false} FirstOfExactly<T>(rows: seq<Row<T>>, round: int, data: T)
    ensures FirstOf(rows, round) == Some(data) <==> ComesFirst(rows, round, data)
  {
    FirstOfFinds(rows, round);
    if rows != [] {
      var n := |rows| - 1;
      FirstOfExactly(rows[..n], round, data);
      FirstOfFinds(rows[..n], round);
      if ComesFirst(rows[..n], round, data) {
        var i :| 0 <= i < n && rows[..n][i] == Row(round, data) && !HasRound(rows[..n][..i], round);
        assert rows[..n][..i] == rows[..i];
        assert rows[i] == Row(round, data) && !HasRound(rows[..i], round);
      }
      if ComesFirst(rows, round, data) {
        var i :| 0 <= i < |rows| && rows[i] == Row(round, data) && !HasRound(rows[..i], round);
        if i < n {
          assert rows[..n][..i] == rows[..i];
          assert rows[..n][i] == Row(round, data);
        }
      }
    }
  }

  ghost predicate ComesFirst<T>(rows: seq<Row<T>>, round: int, data: T) {
    exists i :: 0 <= i < |rows| && rows[i] == Row(round, data) && !HasRound(rows[..i], round)
  }

  /** Where a round's rows are in the input. */
  function Places<T>(rows: seq<Row<T>>, round: int): seq<nat> {
    if rows == [] then []
    else
      var n := |rows| - 1;
      Places(rows[..n], round) + if rows[n].round == round then [n] else []
  }

  /** A round's rows are those with its index, all of them and in input order. */
  lemma {:induction false} SelectInOrder<T>(rows: seq<Row<T>>, round: int)
    ensures var places := Places(rows, round);
            && Rising(places)
            && (forall k: nat :: k in places <==> k < |rows| && rows[k].round == round)
            && TakenAt(Select(rows, round), rows, places)
  {
    PlacesExactly(rows, round);
    SelectTaken(rows, round);
  }

  ghost predicate Rising(places: seq<nat>) {
    forall i, j :: 0 <= i < j < |places| ==> places[i] < places[j]
  }

  /** The elements are those of `rows` at these places. */
  ghost predicate TakenAt<T>(taken: seq<T>, rows: seq<T>, places: seq<nat>) {
    |taken| == |places| && forall i :: 0 <= i < |places| ==> places[i] < |rows| && taken[i] == rows[places[i]]
  }

  lemma {:induction false} PlacesExactly<T>(rows: seq<Row<T>>, round: int)
    ensures Rising(Places(rows, round))
    ensures forall k: nat :: k in Places(rows, round) <==> k < |rows| && rows[k].round == round
  {
    forall k: nat ensures k in Places(rows, round) <==> k < |rows| && rows[k].round == round {
      PlacesAt(rows, round, k);
    }
    PlacesRise(rows, round);
  }

  lemma {:induction false} PlacesAt<T>(rows: seq<Row<T>>, round: int, k: nat)
    ensures k in Places(rows, round) <==> k < |rows| && rows[k].round == round
  {
    if rows != [] {
      PlacesAt(rows[..|rows| - 1], round, k);
    }
  }

  lemma {:induction false} PlacesRise<T>(rows: seq<Row<T>>, round: int)
    ensures Rising(Places(rows, round))
  {
    if rows != [] {
      var n := |rows| - 1;
      var init := Places(rows[..n], round);
      PlacesRise(rows[..n], round);
      forall i | 0 <= i < |init| ensures init[i] < n {
        PlacesAt(rows[..n], round, init[i]);
      }
    }
  }

  lemma {:induction false} SelectTaken<T>(rows: seq<Row<T>>, round: int)
    ensures TakenAt(Select(rows, round), rows, Places(rows, round))
  {
    if rows != [] {
      var n := |rows| - 1;
      SelectTaken(rows[..n], round);
      TakenLater(Select(rows[..n], round), rows, n, Places(rows[..n], round));
    }
  }

  lemma {:induction false} TakenLater<T>(taken: seq<T>, rows: seq<T>, n: nat, places: seq<nat>)
    requires n <= |rows| && TakenAt(taken, rows[..n], places)
    ensures TakenAt(taken, rows, places)
  {
  }

  lemma {:induction false} SelectEmpty<T>(rows: seq<Row<T>>, round: int)
    ensures Select(rows, round) == [] <==> !HasRound(rows, round)
  {
    if rows != [] {
      var init := rows[..|rows| - 1];
      SelectEmpty(init, round);
      if HasRound(init, round) {
        var i :| 0 <= i < |init| && init[i].round == round;
        assert rows[i].round == round;
      }
    }
  }

  lemma {:induction false} SelectCount<T>(rows: seq<Row<T>>, round: int, x: Row<T>)
    ensures multiset(Select(rows, round))[x] == if x.round == round then multiset(rows)[x] else 0
  {
    if rows != [] {
      SelectCount(rows[..|rows| - 1], round, x);
      assert rows == rows[..|rows| - 1] + [rows[|rows| - 1]];
    }
  }

  // ----- The code -----

  /** Bucket rows by round; `keys` lists the map's keys in insertion order. */
  method GroupByRoundIndex<T>(rows: seq<Row<T>>) returns (m: map<int, seq<Row<T>>>, keys: seq<int>)
    ensures Distinct(keys) && forall r :: r in keys <==> r in m
    ensures forall r :: r in m <==> HasRound(rows, r)
    ensures forall r :: r in m ==> m[r] == Select(rows, r)
  {
    m, keys := map[], [];
    for i := 0 to |rows|
      invariant KeysOf(keys, m) && Bucketed(m, rows[..i])
    {
      var row := rows[i];
      assert rows[..i + 1] == rows[..i] + [row];
      if row.round in m {
        BucketStep(m, keys, rows[..i], row, m[row.round] + [row]);
        m := m[row.round := m[row.round] + [row]];
      } else {
        BucketStep(m, keys, rows[..i], row, [row]);
        m := m[row.round := [row]];
        keys := keys + [row.round];
      }
    }
    assert rows[..|rows|] == rows;
    BucketKeys(m, rows);
  }

  lemma {:induction false} BucketKeys<T>(m: map<int, seq<Row<T>>>, rows: seq<Row<T>>)
    requires Bucketed(m, rows)
    ensures forall r :: r in m <==> HasRound(rows, r)
    ensures forall r :: r in m ==> m[r] == Select(rows, r)
  {
    forall r ensures r in m <==> HasRound(rows, r) {
      SelectEmpty(rows, r);
    }
  }

  /** The map's keys, each once. */
  ghost predicate KeysOf<V>(keys: seq<int>, m: map<int, V>) {
    Distinct(keys) && forall r :: r in keys <==> r in m
  }

  ghost predicate Bucketed<T>(m: map<int, seq<Row<T>>>, rows: seq<Row<T>>) {
    && (forall r :: r in m <==> Select(rows, r) != [])
    && (forall r :: r in m ==> m[r] == Select(rows, r))
  }

  lemma {:induction false} BucketStep<T>(m: map<int, seq<Row<T>>>, keys: seq<int>, rows: seq<Row<T>>, row: Row<T>,
                                         bucket: seq<Row<T>>)
    requires Bucketed(m, rows) && KeysOf(keys, m)
    requires bucket == (if row.round in m then m[row.round] else []) + [row]
    ensures Bucketed(m[row.round := bucket], rows + [row])
    ensures KeysOf(if row.round in m then keys else keys + [row.round], m[row.round := bucket])
  {
    BucketGrows(m, rows, row, bucket);
    KeysGrow(keys, m, row.round, bucket);
  }

  lemma {:induction false} BucketGrows<T>(m: map<int, seq<Row<T>>>, rows: seq<Row<T>>, row: Row<T>, bucket: seq<Row<T>>)
    requires Bucketed(m, rows)
    requires bucket == (if row.round in m then m[row.round] else []) + [row]
    ensures Bucketed(m[row.round := bucket], rows + [row])
  {
    assert (rows + [row])[..|rows|] == rows;
  }

  lemma {:induction false} KeysGrow<V>(keys: seq<int>, m: map<int, V>, key: int, value: V)
    requires KeysOf(keys, m)
    ensures KeysOf(if key in m then keys else keys + [key], m[key := value])
  {
  }

  /** The first payout of each round; later ones are dropped with a warning. */
  method BuildPayoutIndex<P>(payouts: seq<Row<P>>) returns (m: map<int, P>, keys: seq<int>)
    ensures Distinct(keys) && forall r :: r in keys <==> r in m
    ensures forall r :: r in m <==> FirstOf(payouts, r).Some?
    ensures forall r :: r in m ==> Some(m[r]) == FirstOf(payouts, r)
  {
    m, keys := map[], [];
    for i := 0 to |payouts|
      invariant Distinct(keys) && forall r :: r in keys <==> r in m
      invariant forall r :: r in m <==> FirstOf(payouts[..i], r).Some?
      invariant forall r :: r in m ==> Some(m[r]) == FirstOf(payouts[..i], r)
    {
      assert payouts[..i + 1][..i] == payouts[..i] && payouts[..i + 1][i] == payouts[i];
      if payouts[i].round !in m {
        m := m[payouts[i].round := payouts[i].data];
        keys := keys + [payouts[i].round];
      }
    }
    assert payouts[..|payouts|] == payouts;
  }

  /** Add keys to a set kept in insertion order. */
  method AddKeys(known: seq<int>, more: seq<int>) returns (r: seq<int>)
    requires Distinct(known)
    ensures Distinct(r) && forall k :: k in r <==> k in known || k in more
  {
    r := known;
    for i := 0 to |more|
      invariant Distinct(r) && forall k :: k in r <==> k in known || k in more[..i]
    {
      assert more[..i + 1] == more[..i] + [more[i]];
      if more[i] !in r {
        r := r + [more[i]];
      }
    }
    assert more[..|more|] == more;
  }

  ghost predicate Ascending<P, C, D>(groups: seq<Group<P, C, D>>) {
    forall i, j :: 0 <= i < j < |groups| ==> groups[i].round < groups[j].round
  }

  /** The groups with a given status, in order. */
  function WithStatus<P, C, D>(groups: seq<Group<P, C, D>>, status: set<Status>): seq<Group<P, C, D>> {
    if groups == [] then []
    else
      var last := groups[|groups| - 1];
      WithStatus(groups[..|groups| - 1], status) + if last.status in status then [last] else []
  }

  function Unpaid<P, D>(payouts: seq<Row<P>>, defaults: seq<Row<D>>): seq<Row<D>> {
    if defaults == [] then []
    else
      var last := defaults[|defaults| - 1];
      Unpaid(payouts, defaults[..|defaults| - 1]) + if FirstOf(payouts, last.round).None? then [last] else []
  }

  /** One group per known round, ascending. */
  ghost predicate Complete<P, C, D>(all: seq<Group<P, C, D>>, circle: Circle, payouts: seq<Row<P>>,
                                    contributions: seq<Row<C>>, defaults: seq<Row<D>>) {
    && Ascending(all)
    && (forall i :: 0 <= i < |all| ==> all[i] == GroupOf(circle, payouts, contributions, defaults, all[i].round))
    && (forall i :: 0 <= i < |all| ==> Known(circle, payouts, contributions, defaults, all[i].round))
    && (forall r :: Known(circle, payouts, contributions, defaults, r) ==> Listed(all, r))
  }

  ghost predicate Listed<P, C, D>(all: seq<Group<P, C, D>>, round: int) {
    exists i :: 0 <= i < |all| && all[i].round == round
  }

  function IntLe(a: int, b: int): bool {
    a <= b
  }

  lemma {:induction false} SortedDistinct(keys: seq<int>)
    requires Distinct(keys)
    ensures var s := Sort(IntLe, keys);
            && (forall i, j :: 0 <= i < j < |s| ==> s[i] < s[j])
            && (forall k :: k in s <==> k in keys)
  {
    var s := Sort(IntLe, keys);
    SortSorts(IntLe, keys);
    SortPermutes(IntLe, keys);
    DistinctPermutes(keys, s);
    forall k ensures k in s <==> k in keys {
      assert k in multiset(s) <==> k in multiset(keys);
    }
  }

  lemma {:induction false} DistinctCount(a: seq<int>, k: int)
    requires Distinct(a)
    ensures multiset(a)[k] <= 1
  {
    if a != [] {
      var init, last := a[..|a| - 1], a[|a| - 1];
      DistinctCount(init, k);
      assert a == init + [last] && last !in init;
    }
  }

  lemma {:induction false} DistinctPermutes(a: seq<int>, b: seq<int>)
    requires Distinct(a) && multiset(a) == multiset(b)
    ensures Distinct(b)
  {
    forall i, j | 0 <= i < j < |b| ensures b[i] != b[j] {
      DistinctCount(a, b[i]);
      assert b == b[..j] + b[j..] && b[i] in b[..j] && b[j] in b[j..];
    }
  }

  /** The statuses that make a round the current one. */
  const IN_PROGRESS := {Current, Cancelled}

  /** Paid rounds, the unpaid round the circle is in, and all other unpaid rounds, apart. */
  ghost predicate Filed<P, C, D>(r: Result<P, C, D>, circle: Circle, payouts: seq<Row<P>>, contributions: seq<Row<C>>,
                                 defaults: seq<Row<D>>) {
    && (r.currentRound.Some? <==> InRound(circle) && !HasRound(payouts, circle.currentRound))
    && (r.currentRound.Some? ==>
          && r.currentRound.value.round == circle.currentRound
          && r.currentRound.value.status == if circle.status.Active? then Current else Cancelled)
    && (forall round :: Listed(r.rounds, round) <==> HasRound(payouts, round))
    && (forall round :: Listed(r.openRounds, round) <==>
          && (HasRound(contributions, round) || HasRound(defaults, round)) && !HasRound(payouts, round)
          && !(InRound(circle) && round == circle.currentRound))
    && (forall g :: g in r.rounds ==> g.status == Completed && HasRound(payouts, g.round))
    && (forall g :: g in r.openRounds ==> g.status == Open && !HasRound(payouts, g.round))
  }

  lemma {:induction false} StatusExactly<P, C, D>(circle: Circle, payouts: seq<Row<P>>, contributions: seq<Row<C>>,
                                                  defaults: seq<Row<D>>, round: int)
    ensures var status := GroupOf(circle, payouts, contributions, defaults, round).status;
            && (status == Completed <==> HasRound(payouts, round))
            && (status in IN_PROGRESS <==> !HasRound(payouts, round) && InRound(circle) && round == circle.currentRound)
            && (status == Current ==> circle.status.Active?) && (status == Cancelled ==> circle.status.CircleCancelled?)
  {
    FirstOfFinds(payouts, round);
  }

  lemma {:induction false} FiledGroups<P, C, D>(all: seq<Group<P, C, D>>, circle: Circle, payouts: seq<Row<P>>,
                                                contributions: seq<Row<C>>, defaults: seq<Row<D>>, status: Status)
    requires Complete(all, circle, payouts, contributions, defaults)
    ensures forall g :: g in WithStatus(all, {status}) ==> g.status == status && (HasRound(payouts, g.round) <==> status == Completed)
  {
    forall g | g in WithStatus(all, {status}) ensures g.status == status && (HasRound(payouts, g.round) <==> status == Completed) {
      WithStatusHas(all, {status}, g);
      StatusExactly(circle, payouts, contributions, defaults, g.round);
    }
  }

  lemma {:induction false} ListedExactly<P, C, D>(all: seq<Group<P, C, D>>, circle: Circle, payouts: seq<Row<P>>,
                                                  contributions: seq<Row<C>>, defaults: seq<Row<D>>, round: int)
    requires Complete(all, circle, payouts, contributions, defaults)
    ensures Listed(WithStatus(all, {Completed}), round) <==> HasRound(payouts, round)
    ensures Listed(WithStatus(all, {Open}), round) <==>
      && (HasRound(contributions, round) || HasRound(defaults, round)) && !HasRound(payouts, round)
      && !(InRound(circle) && round == circle.currentRound)
    ensures Listed(WithStatus(all, IN_PROGRESS), round) <==>
      !HasRound(payouts, round) && InRound(circle) && round == circle.currentRound
  {
    StatusExactly(circle, payouts, contributions, defaults, round);
    if Known(circle, payouts, contributions, defaults, round) {
      ExactlyOneList(all, circle, payouts, contributions, defaults, round);
    } else {
      NotListed(all, {Completed}, round);
      NotListed(all, {Open}, round);
      NotListed(all, IN_PROGRESS, round);
    }
  }

  lemma {:induction false} NotListed<P, C, D>(all: seq<Group<P, C, D>>, status: set<Status>, round: int)
    requires !Listed(all, round)
    ensures !Listed(WithStatus(all, status), round)
  {
    var kept := WithStatus(all, status);
    if i :| 0 <= i < |kept| && kept[i].round == round {
      WithStatusHas(all, status, kept[i]);
    }
  }

  lemma {:induction false} FiledExactly<P, C, D>(r: Result<P, C, D>, all: seq<Group<P, C, D>>, circle: Circle,
                                                 payouts: seq<Row<P>>, contributions: seq<Row<C>>, defaults: seq<Row<D>>)
    requires Complete(all, circle, payouts, contributions, defaults)
    requires r.rounds == WithStatus(all, {Completed}) && r.openRounds == WithStatus(all, {Open})
    requires (if r.currentRound.Some? then [r.currentRound.value] else []) == WithStatus(all, IN_PROGRESS)
    ensures Filed(r, circle, payouts, contributions, defaults)
  {
    FiledGroups(all, circle, payouts, contributions, defaults, Completed);
    FiledGroups(all, circle, payouts, contributions, defaults, Open);
    forall round
      ensures Listed(r.rounds, round) <==> HasRound(payouts, round)
      ensures Listed(r.openRounds, round) <==>
        && (HasRound(contributions, round) || HasRound(defaults, round)) && !HasRound(payouts, round)
        && !(InRound(circle) && round == circle.currentRound)
    {
      ListedExactly(all, circle, payouts, contributions, defaults, round);
    }
    CurrentExactly(r, all, circle, payouts, contributions, defaults);
  }

  lemma {:induction false} CurrentExactly<P, C, D>(r: Result<P, C, D>, all: seq<Group<P, C, D>>, circle: Circle,
                                                   payouts: seq<Row<P>>, contributions: seq<Row<C>>, defaults: seq<Row<D>>)
    requires Complete(all, circle, payouts, contributions, defaults)
    requires (if r.currentRound.Some? then [r.currentRound.value] else []) == WithStatus(all, IN_PROGRESS)
    ensures r.currentRound.Some? <==> InRound(circle) && !HasRound(payouts, circle.currentRound)
    ensures r.currentRound.Some? ==>
      && r.currentRound.value.round == circle.currentRound
      && r.currentRound.value.status == if circle.status.Active? then Current else Cancelled
  {
    var current := WithStatus(all, IN_PROGRESS);
    ListedExactly(all, circle, payouts, contributions, defaults, circle.currentRound);
    if r.currentRound.Some? {
      var g := r.currentRound.value;
      assert current[0] == g && g in current;
      WithStatusHas(all, IN_PROGRESS, g);
      StatusExactly(circle, payouts, contributions, defaults, g.round);
    }
  }

  method GroupCircleRounds<P, C, D>(circle: Circle, payouts: seq<Row<P>>, contributions: seq<Row<C>>, defaults: seq<Row<D>>)
    returns (r: Result<P, C, D>, ghost all: seq<Group<P, C, D>>)
    ensures Complete(all, circle, payouts, contributions, defaults)
    ensures r.rounds == WithStatus(all, {Completed}) && r.openRounds == WithStatus(all, {Open})
    ensures (if r.currentRound.Some? then [r.currentRound.value] else []) == WithStatus(all, IN_PROGRESS)
    ensures r.pendingDefaults == Unpaid(payouts, defaults)
    ensures Filed(r, circle, payouts, contributions, defaults)
  {
    var payoutByRound, payoutKeys := BuildPayoutIndex(payouts);
    var contribByRound, contribKeys := GroupByRoundIndex(contributions);
    var defaultsByRound, defaultKeys := GroupByRoundIndex(defaults);
    var keys := AddKeys(payoutKeys, contribKeys);
    keys := AddKeys(keys, defaultKeys);
    if InRound(circle) {
      keys := AddKeys(keys, [circle.currentRound]);
    }
    SortedDistinct(keys);
    var groups := BuildGroups(circle, Sort(IntLe, keys), payoutByRound, contribByRound, defaultsByRound,
                              payouts, contributions, defaults);
    all := groups;
    KnownKeys(circle, payouts, contributions, defaults, Sort(IntLe, keys), groups);
    var rounds, candidates, openRounds := Partition(groups);
    OneCurrent(all, circle, payouts, contributions, defaults);
    var currentRound := None;
    if |candidates| > 1 {
      assert false;
    } else if candidates != [] {
      currentRound := Some(candidates[0]);
    }
    var pending := PendingDefaults(payouts, payoutByRound, defaults);
    r := Result(rounds, currentRound, openRounds, pending);
    FiledExactly(r, all, circle, payouts, contributions, defaults);
  }

  method BuildGroups<P, C, D>(circle: Circle, sorted: seq<int>, payoutByRound: map<int, P>,
                              contribByRound: map<int, seq<Row<C>>>, defaultsByRound: map<int, seq<Row<D>>>,
                              ghost payouts: seq<Row<P>>, ghost contributions: seq<Row<C>>, ghost defaults: seq<Row<D>>)
    returns (groups: seq<Group<P, C, D>>)
    requires forall r :: r in payoutByRound <==> FirstOf(payouts, r).Some?
    requires forall r :: r in payoutByRound ==> Some(payoutByRound[r]) == FirstOf(payouts, r)
    requires forall r :: r in contribByRound <==> HasRound(contributions, r)
    requires forall r :: r in contribByRound ==> contribByRound[r] == Select(contributions, r)
    requires forall r :: r in defaultsByRound <==> HasRound(defaults, r)
    requires forall r :: r in defaultsByRound ==> defaultsByRound[r] == Select(defaults, r)
    ensures |groups| == |sorted|
    ensures forall k :: 0 <= k < |sorted| ==> groups[k] == GroupOf(circle, payouts, contributions, defaults, sorted[k])
  {
    groups := [];
    for i := 0 to |sorted|
      invariant |groups| == i
      invariant forall k :: 0 <= k < i ==> groups[k] == GroupOf(circle, payouts, contributions, defaults, sorted[k])
    {
      var round := sorted[i];
      SelectEmpty(contributions, round);
      SelectEmpty(defaults, round);
      var payout := if round in payoutByRound then Some(payoutByRound[round]) else None;
      var group := Group(round, ResolveStatus(round, payout.Some?, circle), payout,
                         if round in contribByRound then contribByRound[round] else [],
                         if round in defaultsByRound then defaultsByRound[round] else []);
      groups := groups + [group];
    }
  }

  method Partition<P, C, D>(groups: seq<Group<P, C, D>>)
    returns (rounds: seq<Group<P, C, D>>, candidates: seq<Group<P, C, D>>, openRounds: seq<Group<P, C, D>>)
    ensures rounds == WithStatus(groups, {Completed}) && candidates == WithStatus(groups, IN_PROGRESS)
    ensures openRounds == WithStatus(groups, {Open})
  {
    rounds, candidates, openRounds := [], [], [];
    for i := 0 to |groups|
      invariant rounds == WithStatus(groups[..i], {Completed})
      invariant candidates == WithStatus(groups[..i], IN_PROGRESS)
      invariant openRounds == WithStatus(groups[..i], {Open})
    {
      assert groups[..i + 1][..i] == groups[..i] && groups[..i + 1][i] == groups[i];
      if groups[i].status == Completed {
        rounds := rounds + [groups[i]];
      } else if groups[i].status in IN_PROGRESS {
        candidates := candidates + [groups[i]];
      } else {
        openRounds := openRounds + [groups[i]];
      }
    }
    assert groups[..|groups|] == groups;
  }

  method PendingDefaults<P, D>(ghost payouts: seq<Row<P>>, payoutByRound: map<int, P>, defaults: seq<Row<D>>)
    returns (pending: seq<Row<D>>)
    requires forall r :: r in payoutByRound <==> FirstOf(payouts, r).Some?
    ensures pending == Unpaid(payouts, defaults)
  {
    pending := [];
    for i := 0 to |defaults|
      invariant pending == Unpaid(payouts, defaults[..i])
    {
      assert defaults[..i + 1][..i] == defaults[..i] && defaults[..i + 1][i] == defaults[i];
      if defaults[i].round !in payoutByRound {
        pending := pending + [defaults[i]];
      }
    }
    assert defaults[..|defaults|] == defaults;
  }

  lemma {:induction false} KnownKeys<P, C, D>(circle: Circle, payouts: seq<Row<P>>, contributions: seq<Row<C>>, defaults: seq<Row<D>>,
                           sorted: seq<int>, groups: seq<Group<P, C, D>>)
    requires forall i, j :: 0 <= i < j < |sorted| ==> sorted[i] < sorted[j]
    requires forall k :: k in sorted <==>
      || FirstOf(payouts, k).Some? || HasRound(contributions, k) || HasRound(defaults, k)
      || (InRound(circle) && k == circle.currentRound)
    requires |groups| == |sorted|
    requires forall i :: 0 <= i < |groups| ==> groups[i] == GroupOf(circle, payouts, contributions, defaults, sorted[i])
    ensures Complete(groups, circle, payouts, contributions, defaults)
  {
    forall r ensures r in sorted <==> Known(circle, payouts, contributions, defaults, r) {
      FirstOfFinds(payouts, r);
    }
    forall r | Known(circle, payouts, contributions, defaults, r) ensures Listed(groups, r) {
      var i :| 0 <= i < |sorted| && sorted[i] == r;
      assert groups[i].round == r;
    }
  }

  // ----- What the result means -----

  lemma {:induction false} WithStatusHas<P, C, D>(groups: seq<Group<P, C, D>>, status: set<Status>, g: Group<P, C, D>)
    ensures g in WithStatus(groups, status) <==> g in groups && g.status in status
  {
    if groups != [] {
      WithStatusHas(groups[..|groups| - 1], status, g);
      assert groups == groups[..|groups| - 1] + [groups[|groups| - 1]];
    }
  }

  lemma {:induction false} WithStatusAscending<P, C, D>(groups: seq<Group<P, C, D>>, status: set<Status>)
    requires Ascending(groups)
    ensures Ascending(WithStatus(groups, status))
  {
    if groups != [] {
      var init, last := groups[..|groups| - 1], groups[|groups| - 1];
      WithStatusAscending(init, status);
      forall i | 0 <= i < |WithStatus(init, status)| ensures WithStatus(init, status)[i].round < last.round {
        var g := WithStatus(init, status)[i];
        WithStatusHas(init, status, g);
        var k :| 0 <= k < |init| && init[k] == g;
        assert groups[k] == g;
      }
    }
  }

  /** Two rounds never both count as current: the anomaly branch is dead. */
  lemma {:induction false} OneCurrent<P, C, D>(all: seq<Group<P, C, D>>, circle: Circle, payouts: seq<Row<P>>, contributions: seq<Row<C>>,
                            defaults: seq<Row<D>>)
    requires Complete(all, circle, payouts, contributions, defaults)
    ensures |WithStatus(all, IN_PROGRESS)| <= 1
  {
    WithStatusAscending(all, IN_PROGRESS);
    var current := WithStatus(all, IN_PROGRESS);
    forall i | 0 <= i < |current| ensures current[i].round == circle.currentRound {
      WithStatusHas(all, IN_PROGRESS, current[i]);
    }
    if |current| > 1 {
      AscendingAt(current, 0, 1);
    }
  }

  lemma {:induction false} AscendingAt<P, C, D>(groups: seq<Group<P, C, D>>, i: nat, j: nat)
    requires Ascending(groups) && i < j < |groups|
    ensures groups[i].round < groups[j].round
  {
  }

  /** The same rows, each equally often. */
  ghost predicate SameRows<T>(a: seq<T>, b: seq<T>) {
    forall x :: x in a + b ==> multiset(a)[x] == multiset(b)[x]
  }

  function AllContributions<P, C, D>(groups: seq<Group<P, C, D>>): seq<Row<C>> {
    if groups == [] then [] else AllContributions(groups[..|groups| - 1]) + groups[|groups| - 1].contributions
  }

  function AllDefaults<P, C, D>(groups: seq<Group<P, C, D>>): seq<Row<D>> {
    if groups == [] then [] else AllDefaults(groups[..|groups| - 1]) + groups[|groups| - 1].defaults
  }

  lemma {:induction false} ListedSnoc<P, C, D>(groups: seq<Group<P, C, D>>, round: int)
    requires groups != [] && Ascending(groups)
    ensures Listed(groups, round) <==> Listed(groups[..|groups| - 1], round) || groups[|groups| - 1].round == round
    ensures !Listed(groups[..|groups| - 1], groups[|groups| - 1].round)
  {
    var init := groups[..|groups| - 1];
    if Listed(init, round) {
      var i :| 0 <= i < |init| && init[i].round == round;
      assert groups[i].round == round;
    }
    if Listed(groups, round) {
      var i :| 0 <= i < |groups| && groups[i].round == round;
      assert i < |init| ==> init[i].round == round;
    }
  }

  /** Groups of distinct rounds hold a row as often as the table does, if its round is among them. */
  lemma {:induction false} ContributionCount<P, C, D>(groups: seq<Group<P, C, D>>, rows: seq<Row<C>>, x: Row<C>)
    requires Ascending(groups) && forall i :: 0 <= i < |groups| ==> groups[i].contributions == Select(rows, groups[i].round)
    ensures multiset(AllContributions(groups))[x] == if Listed(groups, x.round) then multiset(rows)[x] else 0
  {
    if groups != [] {
      ContributionCount(groups[..|groups| - 1], rows, x);
      ListedSnoc(groups, x.round);
      SelectCount(rows, groups[|groups| - 1].round, x);
    }
  }

  lemma {:induction false} DefaultCount<P, C, D>(groups: seq<Group<P, C, D>>, rows: seq<Row<D>>, x: Row<D>)
    requires Ascending(groups) && forall i :: 0 <= i < |groups| ==> groups[i].defaults == Select(rows, groups[i].round)
    ensures multiset(AllDefaults(groups))[x] == if Listed(groups, x.round) then multiset(rows)[x] else 0
  {
    if groups != [] {
      DefaultCount(groups[..|groups| - 1], rows, x);
      ListedSnoc(groups, x.round);
      SelectCount(rows, groups[|groups| - 1].round, x);
    }
  }

  lemma {:induction false} ListedIfHasRow<P, C, D>(all: seq<Group<P, C, D>>, circle: Circle, payouts: seq<Row<P>>,
                                contributions: seq<Row<C>>, defaults: seq<Row<D>>, round: int)
    requires Complete(all, circle, payouts, contributions, defaults)
    requires HasRound(contributions, round) || HasRound(defaults, round)
    ensures Listed(all, round)
  {
    assert Known(circle, payouts, contributions, defaults, round);
  }

  /** No contribution is lost or duplicated: over all rounds the groups hold the table's rows. */
  lemma {:induction false} ContributionsConserved<P, C, D>(all: seq<Group<P, C, D>>, circle: Circle, payouts: seq<Row<P>>,
                                        contributions: seq<Row<C>>, defaults: seq<Row<D>>)
    requires Complete(all, circle, payouts, contributions, defaults)
    ensures SameRows(AllContributions(all), contributions)
  {
    forall x | x in AllContributions(all) + contributions ensures multiset(AllContributions(all))[x] == multiset(contributions)[x] {
      ContributionCount(all, contributions, x);
      if x in contributions {
        ListedIfHasRow(all, circle, payouts, contributions, defaults, x.round);
      }
    }
  }

  /** Nor is a default. */
  lemma {:induction false} DefaultsConserved<P, C, D>(all: seq<Group<P, C, D>>, circle: Circle, payouts: seq<Row<P>>,
                                   contributions: seq<Row<C>>, defaults: seq<Row<D>>)
    requires Complete(all, circle, payouts, contributions, defaults)
    ensures SameRows(AllDefaults(all), defaults)
  {
    forall x | x in AllDefaults(all) + defaults ensures multiset(AllDefaults(all))[x] == multiset(defaults)[x] {
      DefaultCount(all, defaults, x);
      if x in defaults {
        ListedIfHasRow(all, circle, payouts, contributions, defaults, x.round);
      }
    }
  }

  /** Every known round is in exactly one of the three lists. */
  lemma {:induction false} ExactlyOneList<P, C, D>(all: seq<Group<P, C, D>>, circle: Circle, payouts: seq<Row<P>>, contributions: seq<Row<C>>,
                                defaults: seq<Row<D>>, round: int)
    requires Complete(all, circle, payouts, contributions, defaults)
    requires Known(circle, payouts, contributions, defaults, round)
    ensures var completed, open, current := WithStatus(all, {Completed}), WithStatus(all, {Open}), WithStatus(all, IN_PROGRESS);
            var g := GroupOf(circle, payouts, contributions, defaults, round);
            && g in completed + open + current
            && (Listed(completed, round) <==> g.status == Completed)
            && (Listed(open, round) <==> g.status == Open)
            && (Listed(current, round) <==> g.status in IN_PROGRESS)
  {
    var i :| 0 <= i < |all| && all[i].round == round;
    ListedWithStatus(all, i, {Completed});
    ListedWithStatus(all, i, {Open});
    ListedWithStatus(all, i, IN_PROGRESS);
  }

  lemma {:induction false} ListedWithStatus<P, C, D>(all: seq<Group<P, C, D>>, i: nat, status: set<Status>)
    requires Ascending(all) && i < |all|
    ensures Listed(WithStatus(all, status), all[i].round) <==> all[i].status in status
    ensures all[i].status in status ==> all[i] in WithStatus(all, status)
  {
    var kept := WithStatus(all, status);
    WithStatusHas(all, status, all[i]);
    if all[i].status in status {
      var k :| 0 <= k < |kept| && kept[k] == all[i];
      assert kept[k].round == all[i].round;
    }
    if Listed(kept, all[i].round) {
      var k :| 0 <= k < |kept| && kept[k].round == all[i].round;
      WithStatusHas(all, status, kept[k]);
      var j :| 0 <= j < |all| && all[j] == kept[k];
      assert j == i;
    }
  }

  /** Where the defaults of unpaid rounds are in the input. */
  function UnpaidPlaces<P, D>(payouts: seq<Row<P>>, defaults: seq<Row<D>>): seq<nat> {
    if defaults == [] then []
    else
      var n := |defaults| - 1;
      UnpaidPlaces(payouts, defaults[..n]) + if FirstOf(payouts, defaults[n].round).None? then [n] else []
  }

  /** The pending defaults are those whose round has no payout row, all of them and in input order. */
  lemma {:induction false} UnpaidInOrder<P, D>(payouts: seq<Row<P>>, defaults: seq<Row<D>>)
    ensures var places := UnpaidPlaces(payouts, defaults);
            && Rising(places)
            && (forall k: nat :: k in places <==> k < |defaults| && !HasRound(payouts, defaults[k].round))
            && TakenAt(Unpaid(payouts, defaults), defaults, places)
  {
    UnpaidPlacesExactly(payouts, defaults);
    UnpaidTaken(payouts, defaults);
  }

  lemma {:induction false} UnpaidPlacesExactly<P, D>(payouts: seq<Row<P>>, defaults: seq<Row<D>>)
    ensures Rising(UnpaidPlaces(payouts, defaults))
    ensures forall k: nat :: k in UnpaidPlaces(payouts, defaults) <==> k < |defaults| && !HasRound(payouts, defaults[k].round)
  {
    forall k: nat ensures k in UnpaidPlaces(payouts, defaults) <==> k < |defaults| && !HasRound(payouts, defaults[k].round) {
      UnpaidPlacesAt(payouts, defaults, k);
    }
    UnpaidPlacesRise(payouts, defaults);
  }

  lemma {:induction false} UnpaidPlacesAt<P, D>(payouts: seq<Row<P>>, defaults: seq<Row<D>>, k: nat)
    ensures k in UnpaidPlaces(payouts, defaults) <==> k < |defaults| && !HasRound(payouts, defaults[k].round)
  {
    if defaults != [] {
      var n := |defaults| - 1;
      UnpaidPlacesAt(payouts, defaults[..n], k);
      FirstOfFinds(payouts, defaults[n].round);
    }
  }

  lemma {:induction false} UnpaidPlacesRise<P, D>(payouts: seq<Row<P>>, defaults: seq<Row<D>>)
    ensures Rising(UnpaidPlaces(payouts, defaults))
  {
    if defaults != [] {
      var n := |defaults| - 1;
      var init := UnpaidPlaces(payouts, defaults[..n]);
      UnpaidPlacesRise(payouts, defaults[..n]);
      forall i | 0 <= i < |init| ensures init[i] < n {
        UnpaidPlacesAt(payouts, defaults[..n], init[i]);
      }
    }
  }

  lemma {:induction false} UnpaidTaken<P, D>(payouts: seq<Row<P>>, defaults: seq<Row<D>>)
    ensures TakenAt(Unpaid(payouts, defaults), defaults, UnpaidPlaces(payouts, defaults))
  {
    if defaults != [] {
      var n := |defaults| - 1;
      UnpaidTaken(payouts, defaults[..n]);
      TakenLater(Unpaid(payouts, defaults[..n]), defaults, n, UnpaidPlaces(payouts, defaults[..n]));
    }
  }

  lemma {:induction false} UnpaidCount<P, D>(payouts: seq<Row<P>>, defaults: seq<Row<D>>, x: Row<D>)
    ensures multiset(Unpaid(payouts, defaults))[x] == if FirstOf(payouts, x.round).None? then multiset(defaults)[x] else 0
  {
    if defaults != [] {
      UnpaidCount(payouts, defaults[..|defaults| - 1], x);
      assert defaults == defaults[..|defaults| - 1] + [defaults[|defaults| - 1]];
    }
  }

  /** The pending defaults are those of the current and the open rounds, each once. */
  lemma {:induction false} PendingIsUnpaid<P, C, D>(all: seq<Group<P, C, D>>, circle: Circle, payouts: seq<Row<P>>, contributions: seq<Row<C>>,
                                 defaults: seq<Row<D>>)
    requires Complete(all, circle, payouts, contributions, defaults)
    ensures SameRows(Unpaid(payouts, defaults),
                     AllDefaults(WithStatus(all, IN_PROGRESS)) + AllDefaults(WithStatus(all, {Open})))
  {
    var current, open := AllDefaults(WithStatus(all, IN_PROGRESS)), AllDefaults(WithStatus(all, {Open}));
    var pending := Unpaid(payouts, defaults);
    forall x | x in pending + (current + open) ensures multiset(pending)[x] == multiset(current + open)[x] {
      PendingCount(all, circle, payouts, contributions, defaults, x);
    }
  }

  lemma {:induction false} PendingCount<P, C, D>(all: seq<Group<P, C, D>>, circle: Circle, payouts: seq<Row<P>>, contributions: seq<Row<C>>,
                              defaults: seq<Row<D>>, x: Row<D>)
    requires Complete(all, circle, payouts, contributions, defaults)
    ensures multiset(Unpaid(payouts, defaults))[x]
         == multiset(AllDefaults(WithStatus(all, IN_PROGRESS)))[x] + multiset(AllDefaults(WithStatus(all, {Open})))[x]
  {
    UnpaidCount(payouts, defaults, x);
    StatusCount(all, circle, payouts, contributions, defaults, IN_PROGRESS, x);
    StatusCount(all, circle, payouts, contributions, defaults, {Open}, x);
  }

  lemma {:induction false} StatusCount<P, C, D>(all: seq<Group<P, C, D>>, circle: Circle, payouts: seq<Row<P>>, contributions: seq<Row<C>>,
                             defaults: seq<Row<D>>, status: set<Status>, x: Row<D>)
    requires Complete(all, circle, payouts, contributions, defaults)
    ensures multiset(AllDefaults(WithStatus(all, status)))[x]
         == if GroupOf(circle, payouts, contributions, defaults, x.round).status in status then multiset(defaults)[x] else 0
  {
    var kept := WithStatus(all, status);
    WithStatusAscending(all, status);
    forall i | 0 <= i < |kept| ensures kept[i].defaults == Select(defaults, kept[i].round) {
      WithStatusHas(all, status, kept[i]);
    }
    DefaultCount(kept, defaults, x);
    if x in defaults {
      ListedIfHasRow(all, circle, payouts, contributions, defaults, x.round);
      var i :| 0 <= i < |all| && all[i].round == x.round;
      ListedWithStatus(all, i, status);
    }
  }
}
