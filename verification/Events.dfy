/** Decoded contract events, as the indexer sees them after ScVal decoding and schema matching. */
module Events {
  import opened Prelude

  /** Strkey addresses are opaque identifiers here; `NoAddress` is the '' placeholder. */
  datatype Address = NoAddress | Strkey(id: nat)

  datatype TxHash = TxHash(id: nat)

  datatype CloseReason = ReasonCompleted | ReasonCancelled

  /** One constructor per registered schema; `Unregistered` stands for unknown or malformed payloads. */
  datatype Payload =
    | CircleCreated(circle: Address, creator: Address, index: nat)
    | Initialized(circle: Address, memberCount: nat, roundAmount: int, members: Option<seq<Address>>)
    | Joined(circle: Address, member: Address, joinOrder: nat, collateral: int)
    | Activated(circle: Address, deadline: nat)
    | Contributed(circle: Address, member: Address, round: nat, amount: int)
    | PaidOut(circle: Address, recipient: Address, pot: int, round: nat)
    | Defaulted(circle: Address, member: Address, penalty: int, round: nat, newCollateral: int)
    | RoundStarted(circle: Address, round: nat, recipient: Address, deadline: nat)
    | ExceptionalSettlement(circle: Address, recipient: Address, pot: int, round: nat, defaultedCount: nat)
    | Completed(circle: Address, memberCount: nat)
    | Cancelled(circle: Address, caller: Address, atLedger: nat)
    | CollateralReleased(circle: Address, member: Address, amount: int)
    | Closed(circle: Address, closer: Address, released: int, expected: int, reason: CloseReason)
    | Paused(circle: Address, admin: Address, atLedger: nat)
    | Resumed(circle: Address, admin: Address, atLedger: nat)
    | ScoreUpdated(member: Address, score: nat)
    | Unregistered(problem: string)

  /** A contract together with the payload it published. */
  datatype Emission = Emission(contractId: Address, payload: Payload)

  /** `pos` is the position the event id encodes: events of the chain are ordered by (ledger, pos). */
  datatype Event = Event(
    ledger: nat, pos: nat, txHash: TxHash, eventIndex: Option<nat>, contractId: Address, payload: Payload)

  datatype EventId = EventId(ledger: nat, pos: nat)

  function IdOf(e: Event): EventId {
    EventId(e.ledger, e.pos)
  }

  /** The dedup key: ledger, transaction, contract and decoded content, but not the position. */
  datatype EventKey = EventKey(ledger: nat, txHash: TxHash, contractId: Address, payload: Payload)

  function KeyOf(e: Event): EventKey {
    EventKey(e.ledger, e.txHash, e.contractId, e.payload)
  }

  /** The circle address a circle event carries as its first data field. */
  function Emitter(p: Payload): Option<Address> {
    match p
    case CircleCreated(_, _, _) => None
    case ScoreUpdated(_, _) => None
    case Unregistered(_) => None
    case _ => Some(p.circle)
  }

  datatype Route = Ignore | Quarantine(reason: string) | Project

  /** Schema check and routing: unregistered or misattributed events are quarantined, not projected. */
  function RouteOf(e: Event): Route {
    if e.payload.Unregistered? then Quarantine(e.payload.problem)
    else if Emitter(e.payload).Some? && Emitter(e.payload).value != e.contractId then Quarantine("field 0")
    else if e.payload.CollateralReleased? then Ignore
    else Project
  }
}
