/** The document store, the changes that one commit can make to it, and the decisions by which
    the services choose a change.  Every function named `...Effect` follows the branches of one
    source operation; `Apply` performs the chosen writes. */
module Stores {
  import opened Types

  datatype Store = Store(
    wallets: seq<Wallet>,
    transfers: seq<Transfer>,
    txns: seq<Txn>,
    ledger: seq<Entry>,
    outbox: seq<OutboxEvent>)

  const EMPTY_STORE := Store([], [], [], [], [])

  // ---------------------------------------------------------------- queries

  function Read(s: Store, w: WalletId): Snapshot
    requires w < |s.wallets|
  {
    Snapshot(w, s.wallets[w].balance, s.wallets[w].version)
  }

  /** The filter of a version-checked update: the wallet exists and still has the version read. */
  predicate Matches(s: Store, snap: Snapshot) {
    snap.id < |s.wallets| && s.wallets[snap.id].version == snap.version
  }

  /** Some transaction record of kind `k` names transfer `t`. */
  predicate HasRecord(txns: seq<Txn>, t: TransferId, k: TxnKind) {
    exists x :: x in txns && x.Concerns(t, k)
  }

  /** Look a transfer up by idempotency key. */
  function FindKey(transfers: seq<Transfer>, key: Key): (r: Option<TransferId>)
    ensures r.Some? ==> r.value < |transfers| && transfers[r.value].key == Some(key)
    ensures r.None? ==> forall i :: 0 <= i < |transfers| ==> transfers[i].key != Some(key)
  {
    if transfers == [] then None else
      var n := |transfers| - 1;
      match FindKey(transfers[..n], key)
      case Some(i) => Some(i)
      case None => if transfers[n].key == Some(key) then Some(n) else None
  }

  /** Staged events, oldest first. */
  function Staged(outbox: seq<OutboxEvent>): (r: seq<EventId>)
    ensures forall i :: 0 <= i < |r| ==> r[i] < |outbox| && outbox[r[i]].status == STAGED
    ensures forall i, j :: 0 <= i < j < |r| ==> r[i] < r[j]
    ensures forall e :: 0 <= e < |outbox| && outbox[e].status == STAGED ==> e in r
  {
    if outbox == [] then [] else
      var n := |outbox| - 1;
      var before := Staged(outbox[..n]);
      assert forall e :: 0 <= e < n ==> outbox[..n][e] == outbox[e];
      if outbox[n].status == STAGED then before + [n] else before
  }

  /** The first elements, all of them if there are no more than the limit. */
  function Take<T>(s: seq<T>, limit: nat): (r: seq<T>)
    ensures r <= s && |r| <= limit && (|r| == limit || r == s)
  {
    if |s| <= limit then s else s[..limit]
  }

  /** Transfers that are PENDING and older than the cutoff. */
  function Stale(transfers: seq<Transfer>, cutoff: int): (r: seq<TransferId>)
    ensures forall i :: 0 <= i < |r| ==>
      r[i] < |transfers| && transfers[r[i]].status == PENDING && transfers[r[i]].createdAt < cutoff
    ensures forall t | 0 <= t < |transfers| && transfers[t].status == PENDING && transfers[t].createdAt < cutoff ::
              t in r
    ensures forall i, j :: 0 <= i < j < |r| ==> r[i] < r[j]
  {
    if transfers == [] then [] else
      var n := |transfers| - 1;
      var before := Stale(transfers[..n], cutoff);
      assert forall t :: 0 <= t < n ==> transfers[..n][t] == transfers[t];
      if transfers[n].status == PENDING && transfers[n].createdAt < cutoff then before + [n] else before
  }

  // ---------------------------------------------------------------- changes

  datatype Effect =
    | NoEffect
    | WalletCreated
    | RecordOnly(wallet: WalletId, kind: TxnKind, amount: Amount)
    | Deposited(wallet: WalletId, amount: Amount)
    | Withdrawn(wallet: WalletId, amount: Amount)
    | Transferred(from: WalletId, to: WalletId, amount: Amount, key: Option<Key>, at: Time)
    | Settled(transfer: TransferId, to: WalletId, amount: Amount)
    | Recovered(transfer: TransferId, to: WalletId, amount: Amount)
    | MarkedCompleted(transfer: TransferId)
    | MarkedFailed(transfer: TransferId, reason: FailureReason)
    | MarkedPublished(event: EventId)

  /** The documents that a change touches exist, and funds and keys are as its guards demand. */
  predicate Applicable(s: Store, e: Effect) {
    match e
    case NoEffect => true
    case WalletCreated => true
    case RecordOnly(w, k, _) => w < |s.wallets| && (k == DEPOSIT || k == WITHDRAWAL)
    case Deposited(w, _) => w < |s.wallets|
    case Withdrawn(w, a) => w < |s.wallets| && a <= s.wallets[w].balance
    case Transferred(f, t, a, key, _) =>
      && f < |s.wallets| && t < |s.wallets| && f != t
      && a <= s.wallets[f].balance
      && (key.Some? ==> FindKey(s.transfers, key.value).None?)
    case Settled(t, w, _) => t < |s.transfers| && w < |s.wallets|
    case Recovered(t, w, a) =>
      t < |s.transfers| && w < |s.wallets| && s.transfers[t].to == w && s.transfers[t].amount == a
    case MarkedCompleted(t) => t < |s.transfers|
    case MarkedFailed(t, _) => t < |s.transfers|
    case MarkedPublished(e) => e < |s.outbox|
  }

  /** Move money on one wallet: the balance changes, the version moves on when `bump` is set,
      and a transaction record with its ledger entry is appended. */
  function Post(s: Store, w: WalletId, kind: TxnKind, amount: Amount,
                transfer: Option<TransferId>, counterparty: Option<WalletId>, bump: bool): Store
    requires w < |s.wallets|
  {
    var balance := s.wallets[w].balance + kind.Signed(amount);
    var version := s.wallets[w].version + if bump then 1 else 0;
    s.(wallets := s.wallets[w := Wallet(balance, version)],
       txns := s.txns + [Txn(w, kind, amount, balance, transfer, counterparty)],
       ledger := s.ledger + [Entry(|s.txns|, w, kind.Direction(), amount, balance)])
  }

  function AddEvent(s: Store, p: Payload): Store {
    s.(outbox := s.outbox + [OutboxEvent(p, STAGED)])
  }

  function Complete(s: Store, t: TransferId): Store
    requires t < |s.transfers|
  {
    s.(transfers := s.transfers[t := s.transfers[t].(status := COMPLETED)])
  }

  function Fail(s: Store, t: TransferId, reason: FailureReason): Store
    requires t < |s.transfers|
  {
    s.(transfers := s.transfers[t := s.transfers[t].(status := FAILED, failureReason := Some(reason))])
  }

  /** The debit and the credit that `transfer` commits together. */
  function Exchange(s: Store, from: WalletId, to: WalletId, amount: Amount): Store
    requires from < |s.wallets| && to < |s.wallets|
  {
    var t := |s.transfers|;
    var debited := Post(s, from, TRANSFER_OUT, amount, Some(t), Some(to), true);
    Post(debited, to, TRANSFER_IN, amount, Some(t), Some(from), true)
  }

  function Initiate(s: Store, from: WalletId, to: WalletId, amount: Amount, key: Option<Key>, at: Time): Store {
    AddEvent(s.(transfers := s.transfers + [Transfer(from, to, amount, PENDING, key, None, at)]),
             TransferInitiated(|s.transfers|, from, to, amount))
  }

  function Apply(s: Store, e: Effect): Store
    requires Applicable(s, e)
  {
    match e
    case NoEffect => s
    case WalletCreated => AddEvent(s.(wallets := s.wallets + [Wallet(0, 0)]), WalletOpened(|s.wallets|))
    case RecordOnly(w, k, a) =>
      s.(txns := s.txns + [Txn(w, k, a, s.wallets[w].balance + k.Signed(a), None, None)])
    case Deposited(w, a) => Post(s, w, DEPOSIT, a, None, None, true)
    case Withdrawn(w, a) => Post(s, w, WITHDRAWAL, a, None, None, true)
    case Transferred(f, t, a, key, at) => Initiate(Exchange(s, f, t, a), f, t, a, key, at)
    case Settled(t, w, a) =>
      Complete(Post(s, w, TRANSFER_IN, a, Some(t), Some(s.transfers[t].from), true), t)
    case Recovered(t, w, a) =>
      Complete(Post(s, w, TRANSFER_IN, a, Some(t), Some(s.transfers[t].from), false), t)
    case MarkedCompleted(t) => Complete(s, t)
    case MarkedFailed(t, reason) => Fail(s, t, reason)
    case MarkedPublished(e) => s.(outbox := s.outbox[e := s.outbox[e].(status := PUBLISHED)])
  }

  // -------------------------------------------------------------- decisions

  /** How a session ends: it commits, or it aborts before or after inserting its first record (the
      transaction record of a deposit or withdrawal, the document of a transfer).  Deposits and
      withdrawals insert that record outside the session, so it survives a later abort. */
  datatype SessionEnd = Commits | AbortsBeforeRecord | AbortsAfterRecord

  function DepositEffect(s: Store, snap: Snapshot, amount: Amount, end: SessionEnd): (e: Effect)
    ensures Applicable(s, e)
  {
    if !Matches(s, snap) then NoEffect
    else match end
      case Commits => Deposited(snap.id, amount)
      case AbortsBeforeRecord => NoEffect
      case AbortsAfterRecord => RecordOnly(snap.id, DEPOSIT, amount)
  }

  function WithdrawEffect(s: Store, snap: Snapshot, amount: Amount, end: SessionEnd): (e: Effect)
    ensures Applicable(s, e)
  {
    if !Matches(s, snap) || s.wallets[snap.id].balance < amount then NoEffect
    else match end
      case Commits => Withdrawn(snap.id, amount)
      case AbortsBeforeRecord => NoEffect
      case AbortsAfterRecord => RecordOnly(snap.id, WITHDRAWAL, amount)
  }

  /** Both version-checked updates of `transfer` find their wallet.  The sender's version has
      just moved on when the receiver is looked up, so one wallet cannot play both parts. */
  predicate BothMatch(s: Store, from: Snapshot, to: Snapshot, amount: Amount) {
    && Matches(s, from) && amount <= s.wallets[from.id].balance
    && Matches(s, to) && from.id != to.id
  }

  predicate KeyTaken(s: Store, key: Option<Key>) {
    key.Some? && FindKey(s.transfers, key.value).Some?
  }

  function TransferEffect(s: Store, from: Snapshot, to: Snapshot, amount: Amount, key: Option<Key>,
                          at: Time, end: SessionEnd): (e: Effect)
    ensures Applicable(s, e)
  {
    if BothMatch(s, from, to, amount) && !KeyTaken(s, key) && end == Commits
    then Transferred(from.id, to.id, amount, key, at)
    else NoEffect
  }

  /** The session of `completeTransfer`; it credits the wallet and amount that the event names. */
  function SettleEffect(s: Store, t: TransferId, to: Snapshot, amount: Amount, end: SessionEnd): (e: Effect)
    ensures Applicable(s, e)
  {
    if Matches(s, to) && t < |s.transfers| && end == Commits then Settled(t, to.id, amount) else NoEffect
  }

  // ------------------------------------------------- recovering a transfer

  /** An await of a recovery either goes through or throws. */
  datatype Await = Proceeds | Fails

  /** What `recoverTransfer` awaits next. */
  datatype Stage =
    | CreditCheck
    | CompletedSave
    | ReceiverCheck
    | DebitCheck
    | CreditSession
    | FailedSave(reason: FailureReason)

  /** How many awaits may still follow this one. */
  function Rank(stage: Stage): nat {
    match stage
    case CreditCheck => 4
    case ReceiverCheck => 3
    case DebitCheck => 2
    case CreditSession => 1
    case CompletedSave => 0
    case FailedSave(_) => 0
  }

  /** The change that one await of a recovery makes.  The session finds the receiver by its identity
      alone and looks at no record again. */
  function StageEffect(s: Store, t: TransferId, stage: Stage, await: Await): (e: Effect)
    ensures Applicable(s, e)
  {
    if await == Fails || |s.transfers| <= t then NoEffect
    else match stage
      case CompletedSave => MarkedCompleted(t)
      case FailedSave(reason) => MarkedFailed(t, reason)
      case CreditSession =>
        var x := s.transfers[t];
        if x.to < |s.wallets| then Recovered(t, x.to, x.amount) else NoEffect
      case _ => NoEffect
  }

  /** What a recovery awaits after that; None when it is over.  An aborted session leads to saving
      FAILED, any other error ends the recovery. */
  function NextStage(s: Store, t: TransferId, stage: Stage, await: Await): (r: Option<Stage>)
    ensures r.Some? ==> Rank(r.value) < Rank(stage) && StageEffect(s, t, stage, await) == NoEffect
  {
    if |s.transfers| <= t then None
    else if stage == CreditSession then
      (if StageEffect(s, t, stage, await).Recovered? then None else Some(FailedSave(RecoveryFailed)))
    else if await == Fails then None
    else match stage
      case CreditCheck => Some(if HasRecord(s.txns, t, TRANSFER_IN) then CompletedSave else ReceiverCheck)
      case ReceiverCheck =>
        Some(if s.transfers[t].to < |s.wallets| then DebitCheck else FailedSave(DestinationNotFoundDuringRecovery))
      case DebitCheck =>
        Some(if HasRecord(s.txns, t, TRANSFER_OUT) then CreditSession else FailedSave(NoDebitFoundDuringRecovery))
      case _ => None
  }

  /** How a recovery that nothing interrupts goes: it runs through, its session aborts and FAILED is
      saved, or an error outside the session leaves the store as it was. */
  datatype RecoveryEnd = RunsThrough | SessionAborts | Throws

  /** The change that an uninterrupted recovery makes as a whole. */
  function RecoverEffect(s: Store, t: TransferId, end: RecoveryEnd): (e: Effect)
    ensures Applicable(s, e)
  {
    if end == Throws || |s.transfers| <= t then NoEffect
    else if HasRecord(s.txns, t, TRANSFER_IN) then MarkedCompleted(t)
    else if |s.wallets| <= s.transfers[t].to then MarkedFailed(t, DestinationNotFoundDuringRecovery)
    else if !HasRecord(s.txns, t, TRANSFER_OUT) then MarkedFailed(t, NoDebitFoundDuringRecovery)
    else if end == SessionAborts then MarkedFailed(t, RecoveryFailed)
    else Recovered(t, s.transfers[t].to, s.transfers[t].amount)
  }
}
