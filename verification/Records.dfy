/** What the transaction records say about each transfer. */
module Records {
  import opened Types
  import opened Stores
  import opened Platform
  import opened Histories
  import opened Evolution
  import opened Deliveries
  import opened Accounting

  function Count(txns: seq<Txn>, t: TransferId, k: TxnKind): nat {
    if txns == [] then 0 else
      var n := |txns| - 1;
      Count(txns[..n], t, k) + if txns[n].Concerns(t, k) then 1 else 0
  }

  lemma CountAppend(txns: seq<Txn>, r: Txn, t: TransferId, k: TxnKind)
    ensures Count(txns + [r], t, k) == Count(txns, t, k) + if r.Concerns(t, k) then 1 else 0
  {
    assert (txns + [r])[..|txns|] == txns;
  }

  lemma {:induction false} CountFindsRecord(txns: seq<Txn>, t: TransferId, k: TxnKind)
    ensures HasRecord(txns, t, k) <==> 0 < Count(txns, t, k)
  {
    if txns != [] {
      var n := |txns| - 1;
      CountFindsRecord(txns[..n], t, k);
      assert txns == txns[..n] + [txns[n]];
      assert HasRecord(txns, t, k) <==> HasRecord(txns[..n], t, k) || txns[n].Concerns(t, k);
    }
  }

  // ---------------------------------------------- records name transfers

  /** Exactly the TRANSFER records name a transfer, with its amount, on its receiver's or its
      sender's wallet and with the other one as counterparty. */
  predicate LinkedTo(transfers: seq<Transfer>, r: Txn) {
    match r.transfer
    case None => (r.kind == DEPOSIT || r.kind == WITHDRAWAL) && r.counterparty.None?
    case Some(t) =>
      && t < |transfers|
      && r.amount == transfers[t].amount
      && ((r.kind == TRANSFER_IN && r.wallet == transfers[t].to && r.counterparty == Some(transfers[t].from))
          || (r.kind == TRANSFER_OUT && r.wallet == transfers[t].from && r.counterparty == Some(transfers[t].to)))
  }

  predicate Linked(s: Store) {
    forall k :: 0 <= k < |s.txns| ==> LinkedTo(s.transfers, s.txns[k])
  }

  lemma LinkedLater(ts: seq<Transfer>, ts': seq<Transfer>, r: Txn)
    requires TransfersLater(ts, ts') && LinkedTo(ts, r)
    ensures LinkedTo(ts', r)
  {
    if r.transfer.Some? {
      assert TransferLater(ts[r.transfer.value], ts'[r.transfer.value]);
    }
  }

  lemma NewRecordsLinked(s: Store, e: Effect)
    requires Applicable(s, e) && OwnCredit(s, e)
    ensures forall k :: |s.txns| <= k < |Apply(s, e).txns| ==> LinkedTo(Apply(s, e).transfers, Apply(s, e).txns[k])
  {
    hide HasRecord, FindKey;
  }

  lemma ApplyKeepsLinked(s: Store, e: Effect)
    requires Applicable(s, e) && OwnCredit(s, e) && Linked(s)
    ensures Linked(Apply(s, e))
  {
    hide Apply, Applicable, LinkedTo;
    var s' := Apply(s, e);
    ApplyIsLater(s, e);
    NewRecordsLinked(s, e);
    forall k | 0 <= k < |s'.txns| ensures LinkedTo(s'.transfers, s'.txns[k]) {
      if k < |s.txns| {
        LinkedLater(s.transfers, s'.transfers, s.txns[k]);
      }
    }
  }

  lemma {:induction false} UnknownHasNoRecords(transfers: seq<Transfer>, txns: seq<Txn>, t: TransferId, k: TxnKind)
    requires forall i :: 0 <= i < |txns| ==> LinkedTo(transfers, txns[i])
    requires |transfers| <= t
    ensures Count(txns, t, k) == 0
  {
    if txns != [] {
      UnknownHasNoRecords(transfers, txns[..|txns| - 1], t, k);
      assert LinkedTo(transfers, txns[|txns| - 1]);
    }
  }

  // ---------------------------------------- counting credits and debits

  lemma PostCounts(s: Store, w: WalletId, kind: TxnKind, amount: Amount, transfer: Option<TransferId>,
                   counterparty: Option<WalletId>, bump: bool, t: TransferId, k: TxnKind)
    requires w < |s.wallets|
    ensures Count(Post(s, w, kind, amount, transfer, counterparty, bump).txns, t, k)
         == Count(s.txns, t, k) + When(transfer == Some(t) && kind == k, 1)
  {
    hide Count;
    var s' := Post(s, w, kind, amount, transfer, counterparty, bump);
    CountAppend(s.txns, s'.txns[|s.txns|], t, k);
  }

  lemma ExchangeCounts(s: Store, from: WalletId, to: WalletId, amount: Amount, t: TransferId)
    requires from < |s.wallets| && to < |s.wallets|
    ensures Count(Exchange(s, from, to, amount).txns, t, TRANSFER_IN)
         == Count(s.txns, t, TRANSFER_IN) + When(t == |s.transfers|, 1)
    ensures Count(Exchange(s, from, to, amount).txns, t, TRANSFER_OUT)
         == Count(s.txns, t, TRANSFER_OUT) + When(t == |s.transfers|, 1)
  {
    hide Count;
    var i := Some(|s.transfers|);
    var debited := Post(s, from, TRANSFER_OUT, amount, i, Some(to), true);
    PostCounts(s, from, TRANSFER_OUT, amount, i, Some(to), true, t, TRANSFER_IN);
    PostCounts(s, from, TRANSFER_OUT, amount, i, Some(to), true, t, TRANSFER_OUT);
    PostCounts(debited, to, TRANSFER_IN, amount, i, Some(from), true, t, TRANSFER_IN);
    PostCounts(debited, to, TRANSFER_IN, amount, i, Some(from), true, t, TRANSFER_OUT);
  }

  lemma PostCountsBoth(s: Store, w: WalletId, kind: TxnKind, amount: Amount, transfer: Option<TransferId>,
                       counterparty: Option<WalletId>, bump: bool, t: TransferId)
    requires w < |s.wallets|
    ensures
      var s' := Post(s, w, kind, amount, transfer, counterparty, bump);
      && Count(s'.txns, t, TRANSFER_IN)
         == Count(s.txns, t, TRANSFER_IN) + When(transfer == Some(t) && kind == TRANSFER_IN, 1)
      && Count(s'.txns, t, TRANSFER_OUT)
         == Count(s.txns, t, TRANSFER_OUT) + When(transfer == Some(t) && kind == TRANSFER_OUT, 1)
  {
    PostCounts(s, w, kind, amount, transfer, counterparty, bump, t, TRANSFER_IN);
    PostCounts(s, w, kind, amount, transfer, counterparty, bump, t, TRANSFER_OUT);
  }

  /** A change credits a transfer once per settlement or recovery of it; only its creation debits it. */
  lemma ApplyCounts(s: Store, e: Effect, t: TransferId)
    requires Applicable(s, e)
    ensures Count(Apply(s, e).txns, t, TRANSFER_IN)
         == Count(s.txns, t, TRANSFER_IN) + Weight(Settlements(t), e) + Weight(Recoveries(t), e)
            + When(e.Transferred? && t == |s.transfers|, 1)
    ensures Count(Apply(s, e).txns, t, TRANSFER_OUT)
         == Count(s.txns, t, TRANSFER_OUT) + When(e.Transferred? && t == |s.transfers|, 1)
  {
    hide HasRecord, FindKey, Post, Count;
    match e
    case RecordOnly(w, k, a) =>
      var r := Txn(w, k, a, s.wallets[w].balance + k.Signed(a), None, None);
      CountAppend(s.txns, r, t, TRANSFER_IN);
      CountAppend(s.txns, r, t, TRANSFER_OUT);
    case Deposited(w, a) => PostCountsBoth(s, w, DEPOSIT, a, None, None, true, t);
    case Withdrawn(w, a) => PostCountsBoth(s, w, WITHDRAWAL, a, None, None, true, t);
    case Transferred(f, w, a, _, _) => ExchangeCounts(s, f, w, a, t);
    case Settled(x, w, a) => PostCountsBoth(s, w, TRANSFER_IN, a, Some(x), Some(s.transfers[x].from), true, t);
    case Recovered(x, w, a) => PostCountsBoth(s, w, TRANSFER_IN, a, Some(x), Some(s.transfers[x].from), false, t);
    case _ =>
  }

  /** Only a transfer request creates a transfer. */
  lemma ApplyCreates(s: Store, e: Effect)
    requires Applicable(s, e)
    ensures |Apply(s, e).transfers| == |s.transfers| + When(e.Transferred?, 1)
  {
    hide HasRecord, FindKey;
  }

  // ---------------------------------------------------------- evidence

  /** A COMPLETED transfer has a TRANSFER_IN record and a FAILED one a reason. */
  predicate Evidence(s: Store) {
    && (forall t :: 0 <= t < |s.transfers| && s.transfers[t].status == COMPLETED ==> 0 < Count(s.txns, t, TRANSFER_IN))
    && (forall t :: 0 <= t < |s.transfers| && s.transfers[t].status == FAILED ==> s.transfers[t].failureReason.Some?)
  }

  /** Transfers from `first` on were created by `transfer`: one debit and at least one credit. */
  predicate BornWhole(s: Store, first: nat) {
    forall t :: first <= t < |s.transfers| ==>
      Count(s.txns, t, TRANSFER_OUT) == 1 && 1 <= Count(s.txns, t, TRANSFER_IN)
  }

  /** COMPLETED is saved without a credit only when one is on record. */
  predicate Backed(s: Store, e: Effect) {
    e.MarkedCompleted? ==> HasRecord(s.txns, e.transfer, TRANSFER_IN)
  }

  lemma ApplyKeepsEvidence(s: Store, e: Effect)
    requires Applicable(s, e) && Backed(s, e) && Evidence(s)
    ensures Evidence(Apply(s, e))
  {
    hide Count, HasRecord, FindKey;
    var s' := Apply(s, e);
    forall t | 0 <= t < |s'.transfers| && s'.transfers[t].status == COMPLETED
      ensures 0 < Count(s'.txns, t, TRANSFER_IN)
    {
      ApplyCounts(s, e, t);
      if e.MarkedCompleted? {
        CountFindsRecord(s.txns, t, TRANSFER_IN);
      }
    }
  }

  lemma ApplyKeepsBornWhole(s: Store, e: Effect, first: nat)
    requires Applicable(s, e) && Linked(s) && BornWhole(s, first)
    ensures BornWhole(Apply(s, e), first)
  {
    hide Count, HasRecord, FindKey, LinkedTo;
    var s' := Apply(s, e);
    forall t | first <= t < |s'.transfers|
      ensures Count(s'.txns, t, TRANSFER_OUT) == 1 && 1 <= Count(s'.txns, t, TRANSFER_IN)
    {
      ApplyCounts(s, e, t);
      if |s.transfers| <= t {
        UnknownHasNoRecords(s.transfers, s.txns, t, TRANSFER_IN);
        UnknownHasNoRecords(s.transfers, s.txns, t, TRANSFER_OUT);
      }
    }
  }

  // ------------------------------------------ what a recovery has seen

  /** The stage of a recovery tells what its checks have found: a credit before COMPLETED is saved, the
      receiver and the debit before the session, no debit before FAILED is saved for that reason.  For
      transfers from `first` on there is only the branch on which the credit exists. */
  predicate SweepKnows(s: Store, x: Sweep, first: nat) {
    x.list != [] && x.stage != CreditCheck ==>
      var t := x.list[0];
      && t < |s.transfers|
      && (x.stage == CompletedSave ==> HasRecord(s.txns, t, TRANSFER_IN))
      && (x.stage == CreditSession || x.stage == FailedSave(RecoveryFailed) ==> HasRecord(s.txns, t, TRANSFER_OUT))
      && (x.stage == FailedSave(NoDebitFoundDuringRecovery) ==> !HasRecord(s.txns, t, TRANSFER_OUT))
      && (x.stage == DebitCheck || x.stage == CreditSession ==> s.transfers[t].to < |s.wallets|)
      && (first <= t ==> x.stage == CompletedSave)
  }

  predicate SweepsKnow(y: System, first: nat) {
    forall k :: 0 <= k < |y.sweeps| ==> SweepKnows(y.store, y.sweeps[k], first)
  }

  /** Credits on record stay, and debits are recorded at creation only. */
  lemma RecordsAfter(s: Store, e: Effect, t: TransferId)
    requires Applicable(s, e) && t < |s.transfers|
    ensures HasRecord(s.txns, t, TRANSFER_IN) ==> HasRecord(Apply(s, e).txns, t, TRANSFER_IN)
    ensures HasRecord(s.txns, t, TRANSFER_OUT) <==> HasRecord(Apply(s, e).txns, t, TRANSFER_OUT)
  {
    hide Apply, HasRecord, Count, Applicable;
    ApplyCounts(s, e, t);
    CountFindsRecord(s.txns, t, TRANSFER_IN);
    CountFindsRecord(s.txns, t, TRANSFER_OUT);
    CountFindsRecord(Apply(s, e).txns, t, TRANSFER_IN);
    CountFindsRecord(Apply(s, e).txns, t, TRANSFER_OUT);
  }

  lemma SweepStillKnows(s: Store, e: Effect, x: Sweep, first: nat)
    requires Applicable(s, e) && SweepKnows(s, x, first)
    ensures SweepKnows(Apply(s, e), x, first)
  {
    hide HasRecord, Apply, Applicable;
    if x.list != [] && x.stage != CreditCheck {
      ApplyIsLater(s, e);
      assert TransferLater(s.transfers[x.list[0]], Apply(s, e).transfers[x.list[0]]);
      RecordsAfter(s, e, x.list[0]);
    }
  }

  lemma StageTeaches(s: Store, x: Sweep, await: Await, first: nat)
    requires SweepKnows(s, x, first) && BornWhole(s, first) && x.list != []
    ensures SweepKnows(s, AfterStage(s, x, await), first)
  {
    hide HasRecord, Count;
    if x.list[0] < |s.transfers| {
      CountFindsRecord(s.txns, x.list[0], TRANSFER_IN);
    }
  }

  /** Where the sweeps of the next state come from. */
  lemma StepSweeps(y: System, a: Action, k: nat)
    requires k < |Step(y, a).sweeps|
    ensures
      || (k < |y.sweeps| && Step(y, a).sweeps[k] == y.sweeps[k])
      || (k < |y.sweeps| && a.Recover? && a.sweep == k && y.sweeps[k].list != []
          && Step(y, a).sweeps[k] == AfterStage(y.store, y.sweeps[k], a.await)
          && EffectOf(y, a) == StageEffect(y.store, y.sweeps[k].list[0], y.sweeps[k].stage, a.await))
      || (a.QueryStale? && k == |y.sweeps|
          && Step(y, a).sweeps[k] == Sweep(Stale(y.store.transfers, y.now - a.timeout), CreditCheck))
  {
    hide Apply, Poll, Stale, AfterStage, StageEffect;
  }

  lemma NewSweepKnows(s: Store, x: Sweep, first: nat)
    requires x.stage == CreditCheck
    ensures SweepKnows(s, x, first)
  {
  }

  lemma StepKeepsSweepsKnow(y: System, a: Action, first: nat)
    requires SweepsKnow(y, first) && BornWhole(y.store, first)
    ensures SweepsKnow(Step(y, a), first)
  {
    hide Step, EffectOf, Apply, SweepKnows, AfterStage, BornWhole, Later, Stale;
    StepAppliesEffect(y, a);
    forall k | 0 <= k < |Step(y, a).sweeps| ensures SweepKnows(Step(y, a).store, Step(y, a).sweeps[k], first) {
      StepSweeps(y, a, k);
      if k < |y.sweeps| && Step(y, a).sweeps[k] != y.sweeps[k] {
        StageTeaches(y.store, y.sweeps[k], a.await, first);
      }
      if k == |y.sweeps| {
        NewSweepKnows(Step(y, a).store, Step(y, a).sweeps[k], first);
      } else {
        SweepStillKnows(y.store, EffectOf(y, a), Step(y, a).sweeps[k], first);
      }
    }
  }

  lemma SavesAreBacked(y: System, a: Action, first: nat)
    requires SweepsKnow(y, first)
    ensures Backed(y.store, EffectOf(y, a))
  {
    hide HasRecord, FindKey;
    if a.Recover? && a.sweep < |y.sweeps| {
      assert SweepKnows(y.store, y.sweeps[a.sweep], first);
    }
  }

  predicate Sound(y: System, first: nat) {
    Faithful(y) && Linked(y.store) && Evidence(y.store) && BornWhole(y.store, first) && SweepsKnow(y, first)
  }

  lemma StepKeepsSound(y: System, a: Action, first: nat)
    requires Sound(y, first)
    ensures Sound(Step(y, a), first)
  {
    hide Step, EffectOf, Apply, Faithful, Linked, Evidence, BornWhole, SweepsKnow, Applicable, OwnCredit, Backed;
    StepKeepsFaithful(y, a);
    StepKeepsSweepsKnow(y, a, first);
    SavesAreBacked(y, a, first);
    StepAppliesEffect(y, a);
    SettlesOwnTransfer(y, a);
    ApplyKeepsLinked(y.store, EffectOf(y, a));
    ApplyKeepsEvidence(y.store, EffectOf(y, a));
    ApplyKeepsBornWhole(y.store, EffectOf(y, a), first);
  }

  /** COMPLETED is always backed by a credit record, FAILED by a reason, and every transfer created since the start
      has exactly one debit record and at least one credit record, over every interleaving
      including stale sweeps and late status writes. */
  lemma {:induction false} RunKeepsSound(y: System, actions: seq<Action>, first: nat)
    requires Sound(y, first)
    ensures Sound(Run(y, actions), first)
  {
    hide Step, Sound;
    if actions != [] {
      var n := |actions| - 1;
      RunKeepsSound(y, actions[..n], first);
      StepKeepsSound(Run(y, actions[..n]), actions[n], first);
    }
  }

  /** A freshly booted process over a lawful store is sound; nothing is asked of legacy transfers
      but that their records and events name them correctly. */
  lemma BootIsSound(s: Store, now: Time)
    requires EventsFaithful(s) && Linked(s) && Evidence(s)
    ensures Sound(Boot(s, now), |s.transfers|)
  {
  }

  predicate SameMoney(s: Store, s': Store) {
    s'.wallets == s.wallets && s'.txns == s.txns && s'.ledger == s.ledger
  }

  lemma OnlyMarks(y: System, a: Action)
    requires Sound(y, 0) && a.Recover?
    ensures EffectOf(y, a).NoEffect? || EffectOf(y, a).MarkedCompleted?
    ensures SameMoney(y.store, Step(y, a).store)
  {
    hide HasRecord, Faithful, Linked, Evidence, BornWhole, Step;
    StepAppliesEffect(y, a);
    if a.sweep < |y.sweeps| {
      assert SweepKnows(y.store, y.sweeps[a.sweep], 0);
    }
  }

  /** From an empty platform every recovery finds the credit already there: it changes a status at
      most, and no sweep ever changes a balance, a record or an entry. */
  lemma SweepsMoveNothing(x: Execution, i: nat)
    requires x.First() == EMPTY && i < |x.actions| && x.actions[i].Recover?
    ensures x.Effects()[i].NoEffect? || x.Effects()[i].MarkedCompleted?
    ensures SameMoney(x.states[i].store, x.states[i + 1].store)
  {
    BootIsSound(EMPTY_STORE, 0);
    hide Step, EffectOf, Sound, Run, SameMoney;
    assert x.states[i + 1] == Step(x.states[i], x.actions[i]);
    ExecutionIsRun(x, 0, i);
    RunKeepsSound(EMPTY, x.actions[0..i], 0);
    OnlyMarks(x.states[i], x.actions[i]);
  }

  /** After an uninterrupted recovery that does not throw, the transfer is COMPLETED exactly when a credit is on
      record for it; the recovery wrote that credit exactly when none was on record, the debit was,
      the receiver exists and the session went through.  A FAILED one gives its reason. */
  lemma WholeRecoveryTellsTheTruth(s: Store, t: TransferId, end: RecoveryEnd)
    requires t < |s.transfers| && end != Throws
    ensures
      var s' := Apply(s, RecoverEffect(s, t, end));
      && (s'.transfers[t].status == COMPLETED <==> HasRecord(s'.txns, t, TRANSFER_IN))
      && (s'.transfers[t].status == FAILED ==>
            && s'.transfers[t].failureReason.Some?
            && (s'.transfers[t].failureReason.value == DestinationNotFoundDuringRecovery
                <==> |s.wallets| <= s.transfers[t].to)
            && (s'.transfers[t].failureReason.value == NoDebitFoundDuringRecovery
                <==> s.transfers[t].to < |s.wallets| && !HasRecord(s.txns, t, TRANSFER_OUT)))
      && Count(s'.txns, t, TRANSFER_IN)
         == Count(s.txns, t, TRANSFER_IN)
            + When(!HasRecord(s.txns, t, TRANSFER_IN) && HasRecord(s.txns, t, TRANSFER_OUT)
                  && s.transfers[t].to < |s.wallets| && end == RunsThrough, 1)
  {
    hide HasRecord, Count, FindKey;
    var e := RecoverEffect(s, t, end);
    ApplyCounts(s, e, t);
    CountFindsRecord(s.txns, t, TRANSFER_IN);
    CountFindsRecord(Apply(s, e).txns, t, TRANSFER_IN);
  }

  // ---------------------------------------------- exact accounting

  function Times(amount: int, n: int): int {
    amount * n
  }

  /** Over the first `n` transfers: amount times credits minus debits on record. */
  function TransferFlow(transfers: seq<Transfer>, txns: seq<Txn>, n: nat): int
    requires n <= |transfers|
  {
    if n == 0 then 0 else
      TransferFlow(transfers, txns, n - 1)
      + Times(transfers[n - 1].amount, Count(txns, n - 1, TRANSFER_IN) - Count(txns, n - 1, TRANSFER_OUT))
  }

  lemma OnceMore(amount: int, n: int)
    ensures Times(amount, n + 1) == Times(amount, n) + amount
    ensures Times(amount, n - 1) == Times(amount, n) - amount
  {
  }

  lemma {:induction false} NoRecordsNoFlow(transfers: seq<Transfer>, n: nat)
    requires n <= |transfers|
    ensures TransferFlow(transfers, [], n) == 0
  {
    if n > 0 {
      NoRecordsNoFlow(transfers, n - 1);
    }
  }

  /** How a record changes the share of one transfer. */
  lemma OneShare(transfers: seq<Transfer>, txns: seq<Txn>, r: Txn, t: TransferId)
    requires t < |transfers| && LinkedTo(transfers, r)
    ensures
      var amount: int := transfers[t].amount;
      Times(amount, Count(txns + [r], t, TRANSFER_IN) - Count(txns + [r], t, TRANSFER_OUT))
        == Times(amount, Count(txns, t, TRANSFER_IN) - Count(txns, t, TRANSFER_OUT))
           + if r.transfer == Some(t) then Carried(r) else 0
  {
    hide Times, Count;
    CountAppend(txns, r, t, TRANSFER_IN);
    CountAppend(txns, r, t, TRANSFER_OUT);
    OnceMore(transfers[t].amount, Count(txns, t, TRANSFER_IN) - Count(txns, t, TRANSFER_OUT));
  }

  lemma {:induction false} OneRecordFlow(transfers: seq<Transfer>, txns: seq<Txn>, r: Txn, n: nat)
    requires n <= |transfers| && LinkedTo(transfers, r)
    ensures TransferFlow(transfers, txns + [r], n)
         == TransferFlow(transfers, txns, n) + if r.transfer.Some? && r.transfer.value < n then Carried(r) else 0
  {
    hide Times, Count, Carried, LinkedTo;
    if n > 0 {
      OneRecordFlow(transfers, txns, r, n - 1);
      OneShare(transfers, txns, r, n - 1);
    }
  }

  lemma {:induction false} FlowByTransfer(transfers: seq<Transfer>, txns: seq<Txn>)
    requires forall k :: 0 <= k < |txns| ==> LinkedTo(transfers, txns[k])
    ensures TransferFlow(transfers, txns, |transfers|) == Flow(txns)
  {
    if txns == [] {
      NoRecordsNoFlow(transfers, |transfers|);
    } else {
      var n := |txns| - 1;
      FlowByTransfer(transfers, txns[..n]);
      OneRecordFlow(transfers, txns[..n], txns[n], |transfers|);
      assert txns == txns[..n] + [txns[n]];
      assert LinkedTo(transfers, txns[n]);
    }
  }

  /** Exact accounting over every interleaving: what all balances together exceed the transfer
      records by, each transfer's amount times its TRANSFER_IN minus its TRANSFER_OUT records, grows by
      committed deposits and falls by committed withdrawals, and by nothing else. */
  lemma ExactAccounting(x: Execution, first: nat)
    requires Sound(x.First(), first)
    ensures
      var s, s' := x.First().store, x.Last().store;
      Total(s'.wallets) - TransferFlow(s'.transfers, s'.txns, |s'.transfers|)
        == Total(s.wallets) - TransferFlow(s.transfers, s.txns, |s.transfers|)
           + Sum(DepositTotal, x.Effects()) - Sum(WithdrawalTotal, x.Effects())
  {
    hide Run, History, Step, Count, Faithful, Evidence, BornWhole, LinkedTo, TransferFlow;
    WholeExecutionIsRun(x);
    TotalsOfRun(x.First(), x.actions);
    RunKeepsSound(x.First(), x.actions, first);
    FlowByTransfer(x.First().store.transfers, x.First().store.txns);
    FlowByTransfer(x.Last().store.transfers, x.Last().store.txns);
  }

  /** From an empty platform: all balances together are the committed deposits minus the committed
      withdrawals plus amount times (credits minus debits) over all transfers. */
  lemma ExactAccountingFromEmpty(x: Execution)
    requires x.First() == EMPTY
    ensures
      var s := x.Last().store;
      Total(s.wallets) == Sum(DepositTotal, x.Effects()) - Sum(WithdrawalTotal, x.Effects())
                          + TransferFlow(s.transfers, s.txns, |s.transfers|)
  {
    hide Step, EffectOf;
    BootIsSound(EMPTY_STORE, 0);
    ExactAccounting(x, 0);
  }
}
