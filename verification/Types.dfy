/** The documents of the wallet platform: wallets, transfers, transaction records,
    ledger entries and staged outbox events.  Documents are identified by their position in
    the collection that holds them, so creation order is the order of identifiers. */
module Types {

  datatype Option<+T> = None | Some(value: T)

  type WalletId = nat
  type TransferId = nat
  type TxnId = nat
  type EventId = nat
  type MessageId = nat
  type Time = nat

  /** Money in minor units; request validation admits positive amounts only. */
  type Amount = n: int | 0 < n witness 1

  /** Request validation refuses the empty idempotency key. */
  type Key = k: string | k != "" witness "key"

  datatype Wallet = Wallet(balance: int, version: nat)

  datatype TransferStatus = PENDING | COMPLETED | FAILED

  datatype FailureReason =
    | DestinationNotFound
    | SettlementFailed
    | DestinationNotFoundDuringRecovery
    | NoDebitFoundDuringRecovery
    | RecoveryFailed

  datatype Transfer = Transfer(
    from: WalletId,
    to: WalletId,
    amount: Amount,
    status: TransferStatus,
    key: Option<Key>,
    failureReason: Option<FailureReason>,
    createdAt: Time)

  datatype TxnKind = DEPOSIT | WITHDRAWAL | TRANSFER_IN | TRANSFER_OUT {
    /** Deposits and incoming transfers add to a balance, the other two kinds subtract. */
    predicate Incoming() {
      DEPOSIT? || TRANSFER_IN?
    }

    function Signed(amount: int): int {
      if Incoming() then amount else -amount
    }

    function Direction(): Direction {
      if Incoming() then CREDIT else DEBIT
    }
  }

  datatype Txn = Txn(
    wallet: WalletId,
    kind: TxnKind,
    amount: Amount,
    balanceAfter: int,
    transfer: Option<TransferId>,
    counterparty: Option<WalletId>)
  {
    predicate Concerns(t: TransferId, k: TxnKind) {
      transfer == Some(t) && kind == k
    }
  }

  datatype Direction = DEBIT | CREDIT

  datatype Entry = Entry(
    txn: TxnId,
    wallet: WalletId,
    direction: Direction,
    amount: Amount,
    balanceAfter: int)
  {
    function Signed(): int {
      var value: int := amount;
      if direction == CREDIT then value else -value
    }
  }

  /** An event's payload; its constructor stands for the routing key. */
  datatype Payload =
    | WalletOpened(wallet: WalletId)
    | TransferInitiated(transfer: TransferId, from: WalletId, to: WalletId, amount: Amount)

  datatype EventStatus = STAGED | PUBLISHED

  datatype OutboxEvent = OutboxEvent(payload: Payload, status: EventStatus)

  /** What an operation remembers of a wallet document it has read. */
  datatype Snapshot = Snapshot(id: WalletId, balance: int, version: nat)
}
