/** Concrete runs on which stronger promises fail. */
module Anomalies {
  import opened Types
  import opened Stores
  import opened Platform
  import opened Deliveries
  import opened Accounting
  import opened Records
  import opened Caching

  /** Sender 0 has paid 4 to receiver 1 by a transfer that only debited it; its event is staged. */
  const DEBITED := Store(
    [Wallet(6, 0), Wallet(0, 0)],
    [Transfer(0, 1, 4, PENDING, None, None, 0)],
    [Txn(0, DEPOSIT, 10, 10, None, None), Txn(0, TRANSFER_OUT, 4, 6, Some(0), Some(1))],
    [Entry(0, 0, CREDIT, 10, 10), Entry(1, 0, DEBIT, 4, 6)],
    [OutboxEvent(TransferInitiated(0, 0, 1, 4), STAGED)])

  /** The same transfer as `transfer` itself would have committed it: credited at once. */
  const EXCHANGED := Store(
    [Wallet(6, 2), Wallet(4, 1)],
    [Transfer(0, 1, 4, PENDING, None, None, 0)],
    [Txn(0, DEPOSIT, 10, 10, None, None), Txn(0, TRANSFER_OUT, 4, 6, Some(0), Some(1)),
     Txn(1, TRANSFER_IN, 4, 4, Some(0), Some(0))],
    [Entry(0, 0, CREDIT, 10, 10), Entry(1, 0, DEBIT, 4, 6), Entry(2, 1, CREDIT, 4, 4)],
    [OutboxEvent(TransferInitiated(0, 0, 1, 4), STAGED)])

  lemma LawfulBooks()
    ensures EventsFaithful(DEBITED) && Linked(DEBITED) && Evidence(DEBITED)
    ensures EventsFaithful(EXCHANGED) && Linked(EXCHANGED) && Evidence(EXCHANGED)
  {
  }

  /** Two wallets and one transfer of 4 to the second one. */
  predicate OneTransferOf(s: Store) {
    |s.wallets| == 2 && |s.transfers| == 1 && s.transfers[0].to == 1 && s.transfers[0].amount == 4
  }

  predicate OneTransfer(s: Store) {
    OneTransferOf(s) && s.outbox == DEBITED.outbox
  }

  const NEWS := TransferInitiated(0, 0, 1, 4)

  // ----------------------------------------------------- building runs

  lemma Then(y: System, actions: seq<Action>, a: Action)
    ensures Run(y, actions + [a]) == Step(Run(y, actions), a)
  {
    hide Step, Run;
    RunSnoc(y, actions, a);
  }

  lemma ThenTwo(y: System, actions: seq<Action>, a: Action, b: Action)
    ensures Run(y, actions + [a, b]) == Step(Step(Run(y, actions), a), b)
  {
    hide Step, Run;
    Then(y, actions, a);
    Then(y, actions + [a], b);
    assert actions + [a] + [b] == actions + [a, b];
  }

  lemma ThenThree(y: System, actions: seq<Action>, a: Action, b: Action, c: Action)
    ensures Run(y, actions + [a, b, c]) == Step(Step(Step(Run(y, actions), a), b), c)
  {
    hide Step, Run;
    ThenTwo(y, actions, a, b);
    Then(y, actions + [a, b], c);
    assert actions + [a, b] + [c] == actions + [a, b, c];
  }

  lemma OneStaged(outbox: seq<OutboxEvent>)
    requires |outbox| == 1 && outbox[0].status == STAGED
    ensures Staged(outbox) == [0]
  {
    assert outbox[..0] == [];
  }

  function AfterPublish(s: Store): System {
    System(s, 1, [], Busy([0], 0, true), [Message(0, NEWS)], {0}, [], [])
  }

  lemma Published(s: Store)
    requires OneTransfer(s)
    ensures Run(Boot(s, 1), [PollOutbox, Publish(Succeeds)]) == AfterPublish(s)
  {
    hide Run;
    OneStaged(s.outbox);
    var y := Boot(s, 1);
    assert Step(y, PollOutbox) == y.(relay := Busy([0], 0, false));
    assert Step(y.(relay := Busy([0], 0, false)), Publish(Succeeds)) == AfterPublish(s);
    RunEmpty(y);
    ThenTwo(y, [], PollOutbox, Publish(Succeeds));
    assert [] + [PollOutbox, Publish(Succeeds)] == [PollOutbox, Publish(Succeeds)];
  }

  // ----------------------------------------------------- minting money

  /** A handler that has read both documents, then its commit. */
  lemma DeliverOnce(y: System, s: Store)
    requires y == AfterPublish(s) && OneTransfer(s) && s.transfers[0].status == PENDING
    ensures
      var y2 := Step(Step(y, Deliver(0)), LocateReceiver(0));
      && y2 == y.(deliveries := [Settling(0, 0, 4, Read(s, 1))])
      && Step(y2, Settle(0, Commits)).store == Apply(s, Settled(0, 1, 4))
  {
    hide Apply;
    assert Step(y, Deliver(0)) == y.(deliveries := [Locating(0, 0, 4, 1)]);
    var y2 := y.(deliveries := [Settling(0, 0, 4, Read(s, 1))]);
    assert Step(y.(deliveries := [Locating(0, 0, 4, 1)]), LocateReceiver(0)) == y2;
    assert EffectOf(y2, Settle(0, Commits)) == Settled(0, 1, 4);
  }

  lemma TotalOfTwo(a: int, v: nat, b: int, w: nat)
    ensures Total([Wallet(a, v), Wallet(b, w)]) == a + b
  {
    var both := [Wallet(a, v), Wallet(b, w)];
    var one := [Wallet(a, v)];
    assert both[..1] == one && one[..0] == [];
    assert Total(one) == a;
  }

  const MINTING: seq<Action> :=
    [PollOutbox, Publish(Succeeds)] + [Deliver(0), LocateReceiver(0), Settle(0, Commits)]

  lemma MintingRun()
    ensures Total(Run(Boot(EXCHANGED, 1), MINTING).store.wallets) == 14
    ensures Total(EXCHANGED.wallets) == 10
  {
    hide Step, Run, Total, Apply;
    ThenThree(Boot(EXCHANGED, 1), [PollOutbox, Publish(Succeeds)], Deliver(0), LocateReceiver(0), Settle(0, Commits));
    Published(EXCHANGED);
    DeliverOnce(AfterPublish(EXCHANGED), EXCHANGED);
    TotalOfTwo(6, 2, 4, 1);
    ApplyTotals(EXCHANGED, Settled(0, 1, 4));
  }

  lemma CountsAtFirst()
    ensures Count(EXCHANGED.txns, 0, TRANSFER_IN) == 1
    ensures Count(DEBITED.txns, 0, TRANSFER_IN) == 0 && Count(DEBITED.txns, 0, TRANSFER_OUT) == 1
    ensures HasRecord(DEBITED.txns, 0, TRANSFER_OUT)
  {
    var d, e := DEBITED.txns, EXCHANGED.txns;
    assert d[..1] == [d[0]] && [d[0]][..0] == [];
    assert e[..2] == d && e == d + [e[2]];
    CountAppend(d, e[2], 0, TRANSFER_IN);
    assert d[1].Concerns(0, TRANSFER_OUT);
  }

  /** Delivering the event of a transfer that `transfer` itself committed raises the sum of all
      balances although nobody deposits: conservation fails over whole runs. */
  lemma SettlementMintsMoney() returns (x: Execution)
    ensures x.First() == Boot(EXCHANGED, 1) && x.actions == MINTING
    ensures
      && EventsFaithful(EXCHANGED) && Linked(EXCHANGED) && Evidence(EXCHANGED)
      && Total(EXCHANGED.wallets) == 10
      && Total(x.Last().store.wallets) == 14
  {
    hide Step, Run, Linked, Evidence, EventsFaithful, Count, Total;
    x := EveryRunIsExecution(Boot(EXCHANGED, 1), MINTING);
    LawfulBooks();
    CountsAtFirst();
    MintingRun();
  }

  // ----------------------------------------------------- failing in vain

  const ABORTED: seq<Action> :=
    [PollOutbox, Publish(Succeeds)]
    + [Deliver(0), LocateReceiver(0), Settle(0, AbortsBeforeRecord)] + [SaveFailed(0, true)]

  lemma AbortThenSave(y: System, s: Store)
    requires OneTransfer(s) && y == AfterPublish(s).(deliveries := [Settling(0, 0, 4, Read(s, 1))])
    ensures Step(Step(y, Settle(0, AbortsBeforeRecord)), SaveFailed(0, true)).store == Fail(s, 0, SettlementFailed)
  {
    assert Step(y, Settle(0, AbortsBeforeRecord)) == y.(deliveries := [Failing(0, 0, SettlementFailed)]);
  }

  /** When the session of the second credit aborts, a transfer whose receiver was credited at its creation is saved
      as FAILED. */
  lemma FailedAfterCredit() returns (x: Execution)
    ensures x.First() == Boot(EXCHANGED, 1) && x.actions == ABORTED
    ensures x.Last().store.transfers == [Transfer(0, 1, 4, FAILED, None, Some(SettlementFailed), 0)]
    ensures Count(x.Last().store.txns, 0, TRANSFER_IN) == 1
  {
    hide Step, Run, Count;
    var y := Boot(EXCHANGED, 1);
    var a := [PollOutbox, Publish(Succeeds)];
    x := EveryRunIsExecution(y, ABORTED);
    CountsAtFirst();
    Published(EXCHANGED);
    ThenThree(y, a, Deliver(0), LocateReceiver(0), Settle(0, AbortsBeforeRecord));
    Then(y, a + [Deliver(0), LocateReceiver(0), Settle(0, AbortsBeforeRecord)], SaveFailed(0, true));
    DeliverOnce(AfterPublish(EXCHANGED), EXCHANGED);
    AbortThenSave(AfterPublish(EXCHANGED).(deliveries := [Settling(0, 0, 4, Read(EXCHANGED, 1))]), EXCHANGED);
  }

  // --------------------------------------------- two deliveries interleaved

  function TwicePublished(s: Store): System {
    System(s, 1, [], Busy([0], 0, true), [Message(0, NEWS), Message(0, NEWS)], {0, 1}, [], [])
  }

  lemma PublishedAgain(s: Store)
    requires OneTransfer(s)
    ensures Step(Step(Step(AfterPublish(s), MarkSent(FailsBefore)), PollOutbox), Publish(Succeeds)) == TwicePublished(s)
  {
    OneStaged(s.outbox);
    var y := AfterPublish(s);
    assert Step(y, MarkSent(FailsBefore)) == y.(relay := Idle);
    assert Step(y.(relay := Idle), PollOutbox) == y.(relay := Busy([0], 0, false));
  }

  lemma TwoReadTransfers(s: Store)
    requires OneTransfer(s) && s.transfers[0].status == PENDING
    ensures Step(Step(TwicePublished(s), Deliver(0)), Deliver(1))
         == TwicePublished(s).(deliveries := [Locating(0, 0, 4, 1), Locating(1, 0, 4, 1)])
  {
    var y := TwicePublished(s);
    assert Step(y, Deliver(0)) == y.(deliveries := [Locating(0, 0, 4, 1)]);
  }

  /** A handler that has read its transfer reads its receiver and commits. */
  lemma SettleNext(y: System, d: nat)
    requires d < |y.deliveries| && y.deliveries[d] == Locating(d, 0, 4, 1)
    requires 1 < |y.store.wallets| && |y.store.transfers| == 1
    ensures
      Step(Step(y, LocateReceiver(d)), Settle(d, Commits))
        == y.(store := Apply(y.store, Settled(0, 1, 4)), deliveries := y.deliveries[d := Acking(d)])
  {
    hide Apply;
    var y1 := y.(deliveries := y.deliveries[d := Settling(d, 0, 4, Read(y.store, 1))]);
    assert Step(y, LocateReceiver(d)) == y1;
    assert EffectOf(y1, Settle(d, Commits)) == Settled(0, 1, 4);
  }

  const DUPLICATED: seq<Action> :=
    [PollOutbox, Publish(Succeeds)] + [MarkSent(FailsBefore), PollOutbox, Publish(Succeeds)]
    + [Deliver(0), Deliver(1)] + [LocateReceiver(0), Settle(0, Commits)]
    + [LocateReceiver(1), Settle(1, Commits)]

  lemma KeepsDocuments(s: Store, e: Effect)
    requires Applicable(s, e) && (e.Settled? || e.Recovered?)
    ensures |Apply(s, e).wallets| == |s.wallets| && |Apply(s, e).transfers| == |s.transfers|
    ensures e.Recovered? && e.to < |s.wallets| ==> Apply(s, e).wallets[e.to].version == s.wallets[e.to].version
    ensures forall i :: 0 <= i < |s.transfers| ==>
              && Apply(s, e).transfers[i].to == s.transfers[i].to
              && Apply(s, e).transfers[i].amount == s.transfers[i].amount
  {
  }

  lemma DuplicatedRun()
    ensures Count(Run(Boot(EXCHANGED, 1), DUPLICATED).store.txns, 0, TRANSFER_IN) == 3
  {
    CountsAtFirst();
    hide Step, Run, Count, Apply;
    var y := Boot(EXCHANGED, 1);
    var a := [PollOutbox, Publish(Succeeds)];
    var b := a + [MarkSent(FailsBefore), PollOutbox, Publish(Succeeds)];
    var c := b + [Deliver(0), Deliver(1)];
    var d := c + [LocateReceiver(0), Settle(0, Commits)];
    Published(EXCHANGED);
    ThenThree(y, a, MarkSent(FailsBefore), PollOutbox, Publish(Succeeds));
    PublishedAgain(EXCHANGED);
    ThenTwo(y, b, Deliver(0), Deliver(1));
    TwoReadTransfers(EXCHANGED);
    var y1 := TwicePublished(EXCHANGED).(deliveries := [Locating(0, 0, 4, 1), Locating(1, 0, 4, 1)]);
    ThenTwo(y, c, LocateReceiver(0), Settle(0, Commits));
    SettleNext(y1, 0);
    assert y1.deliveries[0 := Acking(0)] == [Acking(0), Locating(1, 0, 4, 1)];
    var y2 := y1.(store := Apply(EXCHANGED, Settled(0, 1, 4)), deliveries := [Acking(0), Locating(1, 0, 4, 1)]);
    ThenTwo(y, d, LocateReceiver(1), Settle(1, Commits));
    KeepsDocuments(EXCHANGED, Settled(0, 1, 4));
    SettleNext(y2, 1);
    ApplyCounts(EXCHANGED, Settled(0, 1, 4), 0);
    ApplyCounts(y2.store, Settled(0, 1, 4), 0);
  }

  /** When an event is published twice and a settlement commits between the other handler's two reads, the
      consumer credits the transfer twice: with the credit at its creation that makes three. */
  lemma DuplicateDeliverySettlesTwice() returns (x: Execution)
    ensures x.First() == Boot(EXCHANGED, 1) && x.actions == DUPLICATED
    ensures
      && EventsFaithful(EXCHANGED) && Linked(EXCHANGED) && Evidence(EXCHANGED)
      && Count(EXCHANGED.txns, 0, TRANSFER_IN) == 1
      && Count(x.Last().store.txns, 0, TRANSFER_IN) == 3
  {
    hide Step, Run, Linked, Evidence, EventsFaithful, Count, Total;
    x := EveryRunIsExecution(Boot(EXCHANGED, 1), DUPLICATED);
    LawfulBooks();
    CountsAtFirst();
    DuplicatedRun();
  }

  // ------------------------------------------------------- sweeps

  lemma OneStale(transfers: seq<Transfer>)
    requires |transfers| == 1 && transfers[0].status == PENDING && transfers[0].createdAt == 0
    ensures Stale(transfers, 1) == [0]
  {
    assert transfers[..0] == [];
  }

  lemma QueriedNext(y: System)
    requires y.store == DEBITED && y.now == 1
    ensures Step(y, QueryStale(0)) == y.(sweeps := y.sweeps + [Sweep([0], CreditCheck)])
  {
    hide Stale;
    OneStale(DEBITED.transfers);
  }

  /** A recovery's three checks, on the debited transfer. */
  lemma ChecksPass(y: System, k: nat)
    requires y.store == DEBITED && k < |y.sweeps| && y.sweeps[k] == Sweep([0], CreditCheck)
    ensures
      Step(Step(Step(y, Recover(k, Proceeds)), Recover(k, Proceeds)), Recover(k, Proceeds))
        == y.(sweeps := y.sweeps[k := Sweep([0], CreditSession)])
  {
    hide Count, HasRecord;
    CountsAtFirst();
    CountFindsRecord(DEBITED.txns, 0, TRANSFER_IN);
    var y1 := y.(sweeps := y.sweeps[k := Sweep([0], ReceiverCheck)]);
    var y2 := y.(sweeps := y.sweeps[k := Sweep([0], DebitCheck)]);
    assert Step(y, Recover(k, Proceeds)) == y1;
    assert Step(y1, Recover(k, Proceeds)) == y2;
  }

  lemma CreditNext(y: System, k: nat)
    requires OneTransferOf(y.store) && k < |y.sweeps| && y.sweeps[k] == Sweep([0], CreditSession)
    ensures
      Step(y, Recover(k, Proceeds))
        == y.(store := Apply(y.store, Recovered(0, 1, 4)), sweeps := y.sweeps[k := Sweep([], CreditCheck)])
  {
    hide Apply;
    assert [0][1..] == [];
  }

  function Checks(k: nat): seq<Action> {
    [Recover(k, Proceeds), Recover(k, Proceeds), Recover(k, Proceeds)]
  }

  /** Two sweeps that have both found no credit. */
  lemma BothChecked()
    ensures Run(Boot(DEBITED, 1), [QueryStale(0), QueryStale(0)] + Checks(0) + Checks(1))
         == Boot(DEBITED, 1).(sweeps := [Sweep([0], CreditSession), Sweep([0], CreditSession)])
  {
    hide Step, Run;
    var y := Boot(DEBITED, 1);
    var a := [QueryStale(0), QueryStale(0)];
    var start, ready := Sweep([0], CreditCheck), Sweep([0], CreditSession);
    RunEmpty(y);
    ThenTwo(y, [], QueryStale(0), QueryStale(0));
    assert [] + a == a;
    QueriedNext(y);
    QueriedNext(y.(sweeps := [start]));
    assert [] + [start] == [start] && [start] + [start] == [start, start];
    ThenThree(y, a, Recover(0, Proceeds), Recover(0, Proceeds), Recover(0, Proceeds));
    ChecksPass(y.(sweeps := [start, start]), 0);
    assert [start, start][0 := ready] == [ready, start];
    ThenThree(y, a + Checks(0), Recover(1, Proceeds), Recover(1, Proceeds), Recover(1, Proceeds));
    ChecksPass(y.(sweeps := [ready, start]), 1);
    assert [ready, start][1 := ready] == [ready, ready];
  }

  const OVERLAPPING: seq<Action> :=
    [QueryStale(0), QueryStale(0)] + Checks(0) + Checks(1)
    + [Recover(0, Proceeds), Recover(1, Proceeds)]

  lemma OverlappingRun()
    ensures Count(Run(Boot(DEBITED, 1), OVERLAPPING).store.txns, 0, TRANSFER_IN) == 2
  {
    CountsAtFirst();
    hide Step, Run, Count, Apply, Checks;
    var ready, over := Sweep([0], CreditSession), Sweep([], CreditCheck);
    var y := Boot(DEBITED, 1).(sweeps := [ready, ready]);
    BothChecked();
    ThenTwo(Boot(DEBITED, 1), [QueryStale(0), QueryStale(0)] + Checks(0) + Checks(1),
            Recover(0, Proceeds), Recover(1, Proceeds));
    CreditNext(y, 0);
    assert [ready, ready][0 := over] == [over, ready];
    var s := Apply(DEBITED, Recovered(0, 1, 4));
    KeepsDocuments(DEBITED, Recovered(0, 1, 4));
    CreditNext(y.(store := s, sweeps := [over, ready]), 1);
    ApplyCounts(DEBITED, Recovered(0, 1, 4), 0);
    ApplyCounts(s, Recovered(0, 1, 4), 0);
  }

  /** When two sweeps overlap and both check for a credit before either session commits, a debit-only
      transfer is credited twice. */
  lemma OverlappingSweepsCreditTwice() returns (x: Execution)
    ensures x.First() == Boot(DEBITED, 1) && x.actions == OVERLAPPING
    ensures
      && EventsFaithful(DEBITED) && Linked(DEBITED) && Evidence(DEBITED)
      && Count(DEBITED.txns, 0, TRANSFER_OUT) == 1 && Count(DEBITED.txns, 0, TRANSFER_IN) == 0
      && Count(x.Last().store.txns, 0, TRANSFER_IN) == 2
  {
    hide Step, Run, Linked, Evidence, EventsFaithful, Count, Total;
    x := EveryRunIsExecution(Boot(DEBITED, 1), OVERLAPPING);
    LawfulBooks();
    CountsAtFirst();
    OverlappingRun();
  }

  // --------------------------------------- a recovery inside a delivery

  lemma SettleAfterRecovery(y: System, s: Store)
    requires OneTransferOf(s) && y.store == Apply(s, Recovered(0, 1, 4))
    requires y.deliveries == [Settling(0, 0, 4, Read(s, 1))]
    ensures Step(y, Settle(0, Commits)).store == Apply(y.store, Settled(0, 1, 4))
  {
    hide Apply;
    KeepsDocuments(s, Recovered(0, 1, 4));
    assert EffectOf(y, Settle(0, Commits)) == Settled(0, 1, 4);
  }

  const INTERRUPTED: seq<Action> :=
    [PollOutbox, Publish(Succeeds)] + [Deliver(0), LocateReceiver(0), QueryStale(0)] + Checks(0)
    + [Recover(0, Proceeds), Settle(0, Commits)]

  lemma InterruptedRun()
    ensures Count(Run(Boot(DEBITED, 1), INTERRUPTED).store.txns, 0, TRANSFER_IN) == 2
  {
    CountsAtFirst();
    hide Step, Run, Count, Apply;
    var y, z := Boot(DEBITED, 1), AfterPublish(DEBITED);
    var r := Recover(0, Proceeds);
    var a := [PollOutbox, Publish(Succeeds)];
    var b := a + [Deliver(0), LocateReceiver(0), QueryStale(0)];
    var c := b + [r, r, r];
    Published(DEBITED);
    ThenThree(y, a, Deliver(0), LocateReceiver(0), QueryStale(0));
    DeliverOnce(z, DEBITED);
    var read := z.(deliveries := [Settling(0, 0, 4, Read(DEBITED, 1))]);
    QueriedNext(read);
    assert [] + [Sweep([0], CreditCheck)] == [Sweep([0], CreditCheck)];
    ThenThree(y, b, r, r, r);
    ChecksPass(read.(sweeps := [Sweep([0], CreditCheck)]), 0);
    ThenTwo(y, c, r, Settle(0, Commits));
    assert [Sweep([0], CreditCheck)][0 := Sweep([0], CreditSession)] == [Sweep([0], CreditSession)];
    assert [Sweep([0], CreditSession)][0 := Sweep([], CreditCheck)] == [Sweep([], CreditCheck)];
    CreditNext(read.(sweeps := [Sweep([0], CreditSession)]), 0);
    var s := Apply(DEBITED, Recovered(0, 1, 4));
    KeepsDocuments(DEBITED, Recovered(0, 1, 4));
    SettleAfterRecovery(read.(store := s, sweeps := [Sweep([], CreditCheck)]), DEBITED);
    ApplyCounts(DEBITED, Recovered(0, 1, 4), 0);
    ApplyCounts(s, Settled(0, 1, 4), 0);
  }

  /** When a sweep's recovery, which leaves the version alone, falls between the read and the session
      of a delivery, a debit-only transfer is credited twice. */
  lemma InterruptedDeliveryCreditsTwice() returns (x: Execution)
    ensures x.First() == Boot(DEBITED, 1) && x.actions == INTERRUPTED
    ensures
      && EventsFaithful(DEBITED) && Linked(DEBITED) && Evidence(DEBITED)
      && Count(DEBITED.txns, 0, TRANSFER_OUT) == 1 && Count(DEBITED.txns, 0, TRANSFER_IN) == 0
      && Count(x.Last().store.txns, 0, TRANSFER_IN) == 2
  {
    hide Step, Run, Linked, Evidence, EventsFaithful, Count, Total;
    x := EveryRunIsExecution(Boot(DEBITED, 1), INTERRUPTED);
    LawfulBooks();
    CountsAtFirst();
    InterruptedRun();
  }

  // ------------------------------------------------------- the dashboard

  /** An aborted deposit leaves its record behind: the dashboard shows 5 deposited on a balance of 0. */
  lemma AbortedDepositShows()
    ensures
      var s := Run(EMPTY, [OpenWallet, ReadForDeposit(0, 5), EndCall(0, AbortsAfterRecord)]).store;
      && s.wallets == [Wallet(0, 0)] && s.ledger == []
      && TotalIn(s.txns, 0) - TotalOut(s.txns, 0) == 5
  {
    hide Run;
    var books := Apply(EMPTY_STORE, WalletCreated);
    var y1 := EMPTY.(store := books);
    var y2 := y1.(calls := [Depositing(Snapshot(0, 0, 0), 5)]);
    RunEmpty(EMPTY);
    ThenThree(EMPTY, [], OpenWallet, ReadForDeposit(0, 5), EndCall(0, AbortsAfterRecord));
    assert [] + [OpenWallet, ReadForDeposit(0, 5), EndCall(0, AbortsAfterRecord)]
        == [OpenWallet, ReadForDeposit(0, 5), EndCall(0, AbortsAfterRecord)];
    assert Step(EMPTY, OpenWallet) == y1;
    assert Step(y1, ReadForDeposit(0, 5)) == y2;
    assert EffectOf(y2, EndCall(0, AbortsAfterRecord)) == RecordOnly(0, DEPOSIT, 5);
    var txns := [Txn(0, DEPOSIT, 5, 5, None, None)];
    assert Step(y2, EndCall(0, AbortsAfterRecord)).store.txns == txns;
    assert txns[..0] == [];
  }

  // ----------------------------------------------------------- the cache

  function Opened(): System {
    EMPTY.(store := Apply(EMPTY_STORE, WalletCreated))
  }

  function Reading(): System {
    Opened().(calls := [Depositing(Snapshot(0, 0, 0), 5)])
  }

  /** The platform after one wallet was opened and 5 deposited on it. */
  function Deposited5(now: Time): System {
    System(Apply(Apply(EMPTY_STORE, WalletCreated), Deposited(0, 5)), now, [Closed], Idle, [], {}, [], [])
  }

  const SLOW: seq<Event> :=
    [Act(OpenWallet), ReadWallet(0), ReadCache(0), Act(ReadForDeposit(0, 5)), Act(EndCall(0, Commits)), Act(Tick),
     Act(Tick), FillCache(0)]

  function SlowStates(): seq<CachedPlatform> {
    var looking, filling := [Looking(0, 0)], [Filling(0, 0)];
    [Uncached(EMPTY), Uncached(Opened()), CachedPlatform(Opened(), map[], looking),
     CachedPlatform(Opened(), map[], filling), CachedPlatform(Reading(), map[], filling),
     CachedPlatform(Deposited5(0), map[], filling), CachedPlatform(Deposited5(1), map[], filling),
     CachedPlatform(Deposited5(2), map[], filling),
     CachedPlatform(Deposited5(2), map[0 := Cached(0, 3)], [Answered(0)])]
  }

  lemma DepositsSoon()
    ensures Step(EMPTY, OpenWallet) == Opened() && Step(Opened(), ReadForDeposit(0, 5)) == Reading()
    ensures Step(Reading(), EndCall(0, Commits)) == Deposited5(0)
    ensures Step(Deposited5(0), Tick) == Deposited5(1) && Step(Deposited5(1), Tick) == Deposited5(2)
  {
    assert EffectOf(Reading(), EndCall(0, Commits)) == Deposited(0, 5);
  }

  lemma OpenedBalance()
    ensures Opened().now == 0 && Opened().store.wallets == [Wallet(0, 0)]
  {
  }

  lemma DepositedBalance()
    ensures forall now :: Deposited5(now).now == now && Deposited5(now).store.wallets == [Wallet(5, 1)]
  {
  }

  lemma SlowStep(i: nat)
    requires i < 8
    ensures SlowStates()[i + 1] == Next(SlowStates()[i], SLOW[i], 1)
  {
    DepositsSoon();
    DepositedBalance();
    OpenedBalance();
    hide Step, Opened, Reading, Deposited5;
    if i == 7 {
      assert map[][0 := Cached(0, 3)] == map[0 := Cached(0, 3)];
    }
  }

  /** A get reads balance 0, a deposit of 5 commits, and only two ticks later the get fills the cache: with an
      expiry period of one tick the next get is answered 0, which the wallet last held two ticks ago. */
  lemma AnswerOlderThanExpiry() returns (x: Service)
    ensures x.Fresh() && x.ttl == 1 && x.events == SLOW && |x.states| == 9
    ensures x.states[5].system.now == 0 && x.states[8].system.now == 2
    ensures forall n :: 5 <= n <= 8 ==>
              |x.states[n].system.store.wallets| == 1 && x.states[n].system.store.wallets[0].balance == 5
    ensures Lookup(x.states[8].cache, 0, x.states[8].system.now) == Some(0)
  {
    DepositsSoon();
    DepositedBalance();
    hide Step, Opened, Reading, Deposited5;
    OpenedBalance();
    var s := SlowStates();
    forall i | 0 <= i < 8 ensures s[i + 1] == Next(s[i], SLOW[i], 1) {
      SlowStep(i);
    }
    x := Timeline(s, SLOW, 1);
  }
}
