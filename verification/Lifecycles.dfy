/** Whole operations that nothing interrupts, from any state: what each leaves in the store, document by document,
    and how it is answered. */
module Lifecycles {
  import opened Types
  import opened Stores
  import opened Platform
  import opened Idempotency
  import opened AtomicDelivery

  // ------------------------------------------- creating, deposit, withdrawal

  /** A wallet and its event, together. */
  lemma OpenWalletDoes(y: System)
    ensures
      var s := y.store;
      Step(y, OpenWallet) == y.(store := Store(
        s.wallets + [Wallet(0, 0)], s.transfers, s.txns, s.ledger,
        s.outbox + [OutboxEvent(WalletOpened(|s.wallets|), STAGED)]))
  {
  }

  /** An ended request takes part in nothing any more. */
  lemma EndedStays(y: System, i: nat)
    requires i < |y.calls| && (y.calls[i] == Closed || y.calls[i].Replied?)
    ensures Step(y, FetchSender(i)) == y && Step(y, FetchReceiver(i)) == y && Step(y, LookUpDuplicate(i)) == y
    ensures forall end :: Step(y, EndCall(i, end)) == y
  {
    hide FindKey;
    assert y.calls[i := y.calls[i]] == y.calls;
  }

  /** What a deposit leaves in a store that allows it, by the end of its session. */
  predicate DepositLeaves(s: Store, s': Store, w: WalletId, amount: Amount, end: SessionEnd)
    requires w < |s.wallets|
  {
    var balance := s.wallets[w].balance + amount;
    var record := Txn(w, DEPOSIT, amount, balance, None, None);
    match end
    case Commits =>
      s' == Store(s.wallets[w := Wallet(balance, s.wallets[w].version + 1)], s.transfers, s.txns + [record],
                  s.ledger + [Entry(|s.txns|, w, CREDIT, amount, balance)], s.outbox)
    case AbortsAfterRecord => s' == s.(txns := s.txns + [record])
    case AbortsBeforeRecord => s' == s
  }

  lemma DepositStarts(y: System, w: WalletId, amount: Amount)
    ensures
      var c := if w < |y.store.wallets| then Depositing(Read(y.store, w), amount) else Closed;
      Step(y, ReadForDeposit(w, amount)) == y.(calls := y.calls + [c])
  {
  }

  lemma DepositEnds(y: System, i: nat, w: WalletId, amount: Amount, end: SessionEnd)
    requires w < |y.store.wallets|
    requires i < |y.calls| && y.calls[i] == Depositing(Read(y.store, w), amount)
    ensures
      var z := Step(y, EndCall(i, end));
      DepositLeaves(y.store, z.store, w, amount, end) && z == y.(store := z.store, calls := y.calls[i := Closed])
  {
    hide FindKey, HasRecord;
  }

  /** A deposit: balance, version, record and entry together; the record alone when the session aborts after
      writing it; nothing for an unknown wallet or an earlier abort. */
  lemma DepositDoes(y: System, w: WalletId, amount: Amount, end: SessionEnd)
    ensures
      var z := Run(y, [ReadForDeposit(w, amount), EndCall(|y.calls|, end)]);
      && z == y.(store := z.store, calls := y.calls + [Closed])
      && (if w < |y.store.wallets| then DepositLeaves(y.store, z.store, w, amount, end) else z.store == y.store)
  {
    hide Step, Run, DepositLeaves;
    var i := |y.calls|;
    var y1 := Step(y, ReadForDeposit(w, amount));
    RunTwo(y, y1, ReadForDeposit(w, amount), EndCall(i, end));
    DepositStarts(y, w, amount);
    if w < |y.store.wallets| {
      DepositEnds(y1, i, w, amount, end);
    } else {
      EndedStays(y1, i);
    }
    assert y1.calls[i := Closed] == y.calls + [Closed];
  }

  /** What a withdrawal leaves in a store that allows it, by the end of its session. */
  predicate WithdrawalLeaves(s: Store, s': Store, w: WalletId, amount: Amount, end: SessionEnd)
    requires w < |s.wallets|
  {
    var balance := s.wallets[w].balance - amount;
    var record := Txn(w, WITHDRAWAL, amount, balance, None, None);
    match end
    case Commits =>
      s' == Store(s.wallets[w := Wallet(balance, s.wallets[w].version + 1)], s.transfers, s.txns + [record],
                  s.ledger + [Entry(|s.txns|, w, DEBIT, amount, balance)], s.outbox)
    case AbortsAfterRecord => s' == s.(txns := s.txns + [record])
    case AbortsBeforeRecord => s' == s
  }

  lemma WithdrawalStarts(y: System, w: WalletId, amount: Amount)
    ensures
      var able := w < |y.store.wallets| && amount <= y.store.wallets[w].balance;
      var c := if able then Withdrawing(Read(y.store, w), amount) else Closed;
      Step(y, ReadForWithdrawal(w, amount)) == y.(calls := y.calls + [c])
  {
  }

  lemma WithdrawalEnds(y: System, i: nat, w: WalletId, amount: Amount, end: SessionEnd)
    requires w < |y.store.wallets| && amount <= y.store.wallets[w].balance
    requires i < |y.calls| && y.calls[i] == Withdrawing(Read(y.store, w), amount)
    ensures
      var z := Step(y, EndCall(i, end));
      WithdrawalLeaves(y.store, z.store, w, amount, end) && z == y.(store := z.store, calls := y.calls[i := Closed])
  {
    hide FindKey, HasRecord;
  }

  /** A withdrawal likewise, and nothing when the balance does not cover it. */
  lemma WithdrawalDoes(y: System, w: WalletId, amount: Amount, end: SessionEnd)
    ensures
      var z := Run(y, [ReadForWithdrawal(w, amount), EndCall(|y.calls|, end)]);
      && z == y.(store := z.store, calls := y.calls + [Closed])
      && (if w < |y.store.wallets| && amount <= y.store.wallets[w].balance
          then WithdrawalLeaves(y.store, z.store, w, amount, end) else z.store == y.store)
  {
    hide Step, Run, WithdrawalLeaves;
    var i := |y.calls|;
    var y1 := Step(y, ReadForWithdrawal(w, amount));
    RunTwo(y, y1, ReadForWithdrawal(w, amount), EndCall(i, end));
    WithdrawalStarts(y, w, amount);
    if w < |y.store.wallets| && amount <= y.store.wallets[w].balance {
      WithdrawalEnds(y1, i, w, amount, end);
    } else {
      EndedStays(y1, i);
    }
    assert y1.calls[i := Closed] == y.calls + [Closed];
  }

  // ----------------------------------------------------------- transfers

  /** A request whose key is stored is answered at once with the transfer stored under it; any other request between
      two wallets goes on to its reads. */
  lemma KnownKeyIsAnswered(y: System, from: WalletId, to: WalletId, amount: Amount, key: Option<Key>)
    ensures
      var z := Step(y, ReadForTransfer(from, to, amount, key));
      var c := z.calls[|y.calls|];
      && |z.calls| == |y.calls| + 1 && z == y.(calls := y.calls + [c])
      && (from == to ==> c == Closed)
      && (from != to && key.Some? && KeyStored(y.store, key.value) ==>
            c.Replied? && c.key == key && c.transfer < |y.store.transfers| && y.store.transfers[c.transfer].key == key)
      && (from != to && (key.Some? ==> !KeyStored(y.store, key.value)) ==>
            c == Fetching(from, to, amount, key, Unread, Unread))
  {
    hide FindKey;
  }

  /** A request whose session collides with its key is answered, once it has looked, with the transfer stored under
      the key; its session leaves nothing behind. */
  lemma CollisionIsAnswered(y: System, i: nat, end: SessionEnd)
    requires i < |y.calls| && y.calls[i].Transferring? && end != AbortsBeforeRecord
    requires
      var c, wallets := y.calls[i], y.store.wallets;
      && c.from.id != c.to.id && c.from.id < |wallets| && c.to.id < |wallets|
      && wallets[c.from.id].version == c.from.version && wallets[c.to.id].version == c.to.version
      && c.amount <= wallets[c.from.id].balance
      && c.key.Some? && KeyStored(y.store, c.key.value)
    ensures
      var z := Step(Step(y, EndCall(i, end)), LookUpDuplicate(i));
      var c := z.calls[i];
      && z == y.(calls := y.calls[i := c])
      && c.Replied? && c.key == y.calls[i].key
      && c.transfer < |y.store.transfers| && y.store.transfers[c.transfer].key == y.calls[i].key
  {
    hide FindKey;
  }

  /** What a transfer of this amount leaves in a store that has both wallets and the funds. */
  predicate Moved(s: Store, s': Store, from: WalletId, to: WalletId, amount: Amount, key: Option<Key>, now: Time)
    requires from < |s.wallets| && to < |s.wallets|
  {
    var t, n := |s.transfers|, |s.txns|;
    var paid, got := s.wallets[from].balance - amount, s.wallets[to].balance + amount;
    s' == Store(
      s.wallets[from := Wallet(paid, s.wallets[from].version + 1)][to := Wallet(got, s.wallets[to].version + 1)],
      s.transfers + [Transfer(from, to, amount, PENDING, key, None, now)],
      s.txns + [Txn(from, TRANSFER_OUT, amount, paid, Some(t), Some(to)),
                Txn(to, TRANSFER_IN, amount, got, Some(t), Some(from))],
      s.ledger + [Entry(n, from, DEBIT, amount, paid), Entry(n + 1, to, CREDIT, amount, got)],
      s.outbox + [OutboxEvent(TransferInitiated(t, from, to, amount), STAGED)])
  }

  /** The session of a request that has read both wallets just now. */
  lemma SessionMoves(y: System, i: nat, from: WalletId, to: WalletId, amount: Amount, key: Option<Key>, end: SessionEnd)
    requires i < |y.calls| && from != to && from < |y.store.wallets| && to < |y.store.wallets|
    requires y.calls[i] == Transferring(Read(y.store, from), Read(y.store, to), amount, key)
    requires amount <= y.store.wallets[from].balance && (key.Some? ==> !KeyStored(y.store, key.value))
    ensures
      var z := Step(y, EndCall(i, end));
      if end == Commits
      then Moved(y.store, z.store, from, to, amount, key, y.now)
           && z == y.(store := z.store, calls := y.calls[i := Replied(key, |y.store.transfers|)])
      else z == y.(calls := y.calls[i := Closed])
  {
    hide FindKey, HasRecord;
    if end == Commits {
      var s, s' := y.store, Step(y, EndCall(i, end)).store;
      assert EffectOf(y, EndCall(i, end)) == Transferred(from, to, amount, key, y.now);
      assert s'.txns == s.txns + [s'.txns[|s.txns|], s'.txns[|s.txns| + 1]];
      assert s'.ledger == s.ledger + [s'.ledger[|s.ledger|], s'.ledger[|s.ledger| + 1]];
    }
  }

  /** The two wallet reads, in this order, with nothing in between. */
  lemma ReadsBoth(y: System, i: nat, from: WalletId, to: WalletId, amount: Amount, key: Option<Key>)
    requires i < |y.calls| && y.calls[i] == Fetching(from, to, amount, key, Unread, Unread)
    ensures
      var z := Step(Step(y, FetchSender(i)), FetchReceiver(i));
      var wallets := y.store.wallets;
      z == y.(calls := y.calls[i :=
        if from < |wallets| && to < |wallets| && amount <= wallets[from].balance
        then Transferring(Read(y.store, from), Read(y.store, to), amount, key) else Closed])
  {
    hide FindKey;
    var y1 := Step(y, FetchSender(i));
    assert y1 == y.(calls := y.calls[i := Fetching(from, to, amount, key, Fetch(y.store, from), Unread)]);
  }

  /** A transfer from its first await to its last: refused, answered with the known transfer, or committed as a
      whole, in which case it is answered with the new one; an abort leaves nothing. */
  lemma TransferDoes(y: System, from: WalletId, to: WalletId, amount: Amount, key: Option<Key>, end: SessionEnd)
    ensures
      var i, s := |y.calls|, y.store;
      var z := Run(y, [ReadForTransfer(from, to, amount, key), FetchSender(i), FetchReceiver(i), EndCall(i, end),
                       LookUpDuplicate(i)]);
      var known := key.Some? && KeyStored(s, key.value);
      var able := from < |s.wallets| && to < |s.wallets| && amount <= s.wallets[from].balance;
      && |z.calls| == i + 1 && z == y.(store := z.store, calls := y.calls + [z.calls[i]])
      && (from == to ==> z.store == s && z.calls[i] == Closed)
      && (from != to && known ==>
            z.store == s && z.calls[i].Replied? && z.calls[i].key == key && z.calls[i].transfer < |s.transfers|
            && s.transfers[z.calls[i].transfer].key == key)
      && (from != to && !known && able && end == Commits ==>
            Moved(s, z.store, from, to, amount, key, y.now) && z.calls[i] == Replied(key, |s.transfers|))
      && (from != to && !known && !(able && end == Commits) ==> z.store == s && z.calls[i] == Closed)
  {
    hide Step, Run, Moved;
    var i := |y.calls|;
    var y1 := Step(y, ReadForTransfer(from, to, amount, key));
    var y2 := Step(y1, FetchSender(i));
    var y3 := Step(y2, FetchReceiver(i));
    var y4 := Step(y3, EndCall(i, end));
    RunFive(y, y1, y2, y3, y4, ReadForTransfer(from, to, amount, key), FetchSender(i), FetchReceiver(i),
            EndCall(i, end), LookUpDuplicate(i));
    KnownKeyIsAnswered(y, from, to, amount, key);
    var c := y1.calls[i];
    if c.Fetching? {
      ReadsBoth(y1, i, from, to, amount, key);
      if y3.calls[i].Transferring? {
        SessionMoves(y3, i, from, to, amount, key, end);
      } else {
        EndedStays(y3, i);
      }
      EndedStays(y4, i);
    } else {
      EndedStays(y1, i);
    }
  }

  // ------------------------------------------------ deliveries, recoveries

  /** The documents after a credit on an existing transfer and wallet. */
  predicate Credited(s: Store, s': Store, t: TransferId, w: WalletId, amount: Amount, bump: bool)
    requires t < |s.transfers| && w < |s.wallets|
  {
    var balance := s.wallets[w].balance + amount;
    s' == Store(
      s.wallets[w := Wallet(balance, s.wallets[w].version + if bump then 1 else 0)],
      s.transfers[t := s.transfers[t].(status := COMPLETED)],
      s.txns + [Txn(w, TRANSFER_IN, amount, balance, Some(t), Some(s.transfers[t].from))],
      s.ledger + [Entry(|s.txns|, w, CREDIT, amount, balance)],
      s.outbox)
  }

  predicate Failed(s: Store, s': Store, t: TransferId, reason: FailureReason)
    requires t < |s.transfers|
  {
    s' == s.(transfers := s.transfers[t := s.transfers[t].(status := FAILED, failureReason := Some(reason))])
  }

  /** One uninterrupted delivery.  A message about a missing or resolved transfer changes nothing and is
      acknowledged; a PENDING one is credited and acknowledged when the receiver exists and the session commits;
      otherwise FAILED is saved with the reason, unless that fails too, and the message stays queued. */
  lemma DeliveryDoes(y: System, x: Delivered)
    requires Deliverable(y, x.msg)
    ensures
      var p := y.published[x.msg].payload;
      var s, z := y.store, Handle(y, x);
      var pending := p.transfer < |s.transfers| && s.transfers[p.transfer].status == PENDING;
      && z == y.(store := z.store, queue := z.queue, deliveries := y.deliveries + [Finished])
      && (!pending ==> z.store == s && z.queue == if x.acked then y.queue - {x.msg} else y.queue)
      && (pending && p.to < |s.wallets| && x.end == Commits ==>
            Credited(s, z.store, p.transfer, p.to, p.amount, true)
            && z.queue == if x.acked then y.queue - {x.msg} else y.queue)
      && (pending && !(p.to < |s.wallets| && x.end == Commits) ==>
            z.queue == y.queue
            && if x.saved
               then Failed(s, z.store, p.transfer, if p.to < |s.wallets| then SettlementFailed else DestinationNotFound)
               else z.store == s)
  {
    hide Handle, FindKey, HasRecord;
    HandleDoes(y, x);
  }

  /** One uninterrupted recovery: COMPLETED is saved when a credit is on record, FAILED when the receiver or the debit
      is missing or the session aborts, and otherwise the transfer is credited; an error outside the session
      leaves everything.  The sweep goes on to its next transfer. */
  lemma RecoveryDoes(y: System, k: nat, end: RecoveryEnd)
    requires Sweeping(y, k) && y.sweeps[k].stage == CreditCheck && y.sweeps[k].list[0] < |y.store.transfers|
    ensures
      var list := y.sweeps[k].list;
      var t, s, z := list[0], y.store, RecoverWhole(y, k, end);
      var x := s.transfers[t];
      && z == y.(store := z.store, sweeps := y.sweeps[k := Sweep(list[1..], CreditCheck)])
      && (end == Throws ==> z.store == s)
      && (end != Throws && HasRecord(s.txns, t, TRANSFER_IN) ==>
            z.store == s.(transfers := s.transfers[t := x.(status := COMPLETED)]))
      && (end != Throws && !HasRecord(s.txns, t, TRANSFER_IN) ==>
            if |s.wallets| <= x.to then Failed(s, z.store, t, DestinationNotFoundDuringRecovery)
            else if !HasRecord(s.txns, t, TRANSFER_OUT) then Failed(s, z.store, t, NoDebitFoundDuringRecovery)
            else if end == SessionAborts then Failed(s, z.store, t, RecoveryFailed)
            else Credited(s, z.store, t, x.to, x.amount, false))
  {
    hide RecoverWhole, FindKey, HasRecord;
    RecoverDoes(y, k, end);
  }
}
