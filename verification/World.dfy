/** The factory and its circles on one ledger history: which transactions ran, and the events they left. */
module World {
  import opened Prelude
  import opened Events
  import opened CircleContract

  const FACTORY: Address := Strkey(0)
  const REPUTATION: Address := Strkey(1)

  type Circles = map<Address, Circle>

  /** One contract invocation per transaction: a factory deployment or a call of one circle's entry point. */
  datatype Tx =
    | Create(addr: Address, creator: Address, index: nat, admin: Address, members: seq<Address>,
             roundAmount: int, deadlineLedgers: nat)
    | Call(addr: Address, op: Op)

  /** `unindexed` are the places of the transaction's events whose ids do not tell their index. */
  datatype Submitted = Submitted(ledger: nat, txHash: TxHash, tx: Tx, unindexed: set<nat>)

  datatype ChainState = ChainState(circles: Circles, events: seq<Event>)

  ghost predicate AllWellFormed(w: Circles) {
    forall a :: a in w ==> WellFormed(w[a])
  }

  /** The contract that publishes a payload when circle `self` runs. */
  function Publisher(p: Payload, self: Address): Address {
    if p.CircleCreated? then FACTORY else if p.ScoreUpdated? then REPUTATION else self
  }

  /** The RPC's view of one transaction's events: positions continue the chain's numbering. */
  function Stamp(payloads: seq<Payload>, s: Submitted, base: nat): (r: seq<Event>)
    ensures |r| == |payloads|
    ensures forall i :: 0 <= i < |r| ==>
      r[i] == Event(s.ledger, base + i, s.txHash, IndexAt(s, i), Publisher(payloads[i], s.tx.addr), payloads[i])
  {
    if payloads == [] then []
    else
      var last := |payloads| - 1;
      Stamp(payloads[..last], s, base)
      + [Event(s.ledger, base + last, s.txHash, IndexAt(s, last), Publisher(payloads[last], s.tx.addr), payloads[last])]
  }

  function IndexAt(s: Submitted, i: nat): Option<nat> {
    if i in s.unindexed then None else Some(i)
  }

  /** A transaction that panics or names an unknown circle has no effect and leaves no event. */
  function Execute(w: Circles, s: Submitted): Option<Effect>
    requires AllWellFormed(w)
  {
    match s.tx
    case Create(addr, creator, index, admin, members, roundAmount, deadlineLedgers) =>
      if addr in w || addr in {NoAddress, FACTORY, REPUTATION} || creator == NoAddress then None
      else (
        match Initialize(addr, admin, members, roundAmount, deadlineLedgers, s.ledger)
        case None => None
        case Some(e) => Some(Effect(e.circle, e.events + [CircleCreated(addr, creator, index)])))
    case Call(addr, op) =>
      if addr !in w then None else Exec(w[addr], addr, op, s.ledger)
  }

  function Step(c: ChainState, s: Submitted): (r: ChainState)
    requires AllWellFormed(c.circles)
    ensures AllWellFormed(r.circles)
  {
    match Execute(c.circles, s)
    case None => c
    case Some(e) =>
      ExecuteKeepsWellFormed(c.circles, s);
      ChainState(c.circles[s.tx.addr := e.circle], c.events + Stamp(e.events, s, |c.events|))
  }

  lemma {:induction false} ExecuteKeepsWellFormed(w: Circles, s: Submitted)
    requires AllWellFormed(w) && Execute(w, s).Some?
    ensures WellFormed(Execute(w, s).value.circle)
  {
    if s.tx.Call? {
      ExecKeepsWellFormed(w[s.tx.addr], s.tx.addr, s.tx.op, s.ledger);
    }
  }

  /** A transaction has an effect exactly when it creates a circle anew, as can be initialised, or its call is allowed. */
  lemma {:induction false} ExecutesExactly(w: Circles, s: Submitted)
    requires AllWellFormed(w)
    ensures Execute(w, s).Some? <==>
      match s.tx
      case Create(addr, creator, _, admin, members, roundAmount, deadlineLedgers) =>
        && addr !in w && addr != NoAddress && addr != FACTORY && addr != REPUTATION && creator != NoAddress
        && Initialize(addr, admin, members, roundAmount, deadlineLedgers, s.ledger).Some?
      case Call(addr, op) => addr in w && Allowed(w[addr], op, s.ledger)
  {
    if s.tx.Call? && s.tx.addr in w {
      AllowedExactly(w[s.tx.addr], s.tx.addr, s.tx.op, s.ledger);
    }
  }

  function Run(h: seq<Submitted>): (c: ChainState)
    ensures AllWellFormed(c.circles)
  {
    if h == [] then ChainState(map[], []) else Step(Run(h[..|h| - 1]), h[|h| - 1])
  }

  /** Ledgers of the submitted transactions never decrease, and every transaction has its own hash. */
  ghost predicate Ordered(h: seq<Submitted>) {
    && (forall i, j :: 0 <= i < j < |h| ==> h[i].ledger <= h[j].ledger)
    && (forall i, j :: 0 <= i < j < |h| ==> h[i].txHash != h[j].txHash)
  }
}
