/** Balances plus the money owed to receivers: which credits keep the sum, over every interleaving and over
    runs with uninterrupted handlers and recoveries. */
module MoneyOwed {
  import opened Types
  import opened Stores
  import opened Platform
  import opened Histories
  import opened Evolution
  import opened Deliveries
  import opened Accounting
  import opened Records
  import opened AtomicDelivery

  function OwedOn(transfers: seq<Transfer>, txns: seq<Txn>, t: TransferId): int
    requires t < |transfers|
  {
    if 1 <= Count(txns, t, TRANSFER_OUT) && Count(txns, t, TRANSFER_IN) == 0 then transfers[t].amount else 0
  }

  /** The amounts of transfers that have been debited and not yet credited. */
  function Owed(transfers: seq<Transfer>, txns: seq<Txn>, n: nat): int
    requires n <= |transfers|
  {
    if n == 0 then 0 else
      Owed(transfers, txns, n - 1) + OwedOn(transfers, txns, n - 1)
  }

  function OwedBy(s: Store): int {
    Owed(s.transfers, s.txns, |s.transfers|)
  }

  /** All balances plus the money owed. */
  function Books(s: Store): int {
    Total(s.wallets) + OwedBy(s)
  }

  /** If only one transfer's records change, only its share of the owed money changes. */
  lemma {:induction false} OwedChanges(s: Store, s': Store, t: TransferId, n: nat)
    requires n <= |s.transfers| <= |s'.transfers|
    requires forall i :: 0 <= i < n ==> s'.transfers[i].amount == s.transfers[i].amount
    requires forall i :: 0 <= i < n && i != t ==> Count(s'.txns, i, TRANSFER_IN) == Count(s.txns, i, TRANSFER_IN)
    requires forall i :: 0 <= i < n && i != t ==> Count(s'.txns, i, TRANSFER_OUT) == Count(s.txns, i, TRANSFER_OUT)
    ensures Owed(s'.transfers, s'.txns, n) - Owed(s.transfers, s.txns, n)
         == if t < n then OwedOn(s'.transfers, s'.txns, t) - OwedOn(s.transfers, s.txns, t) else 0
  {
    hide Count;
    if n > 0 {
      OwedChanges(s, s', t, n - 1);
    }
  }

  /** The transfer whose records a change touches; any other number when it touches none. */
  function Touched(s: Store, e: Effect): TransferId {
    match e
    case Settled(t, _, _) => t
    case Recovered(t, _, _) => t
    case _ => |s.transfers|
  }

  lemma WeightsElsewhere(s: Store, e: Effect, i: TransferId)
    requires Applicable(s, e)
    ensures i != Touched(s, e) ==> Weight(Settlements(i), e) == 0 && Weight(Recoveries(i), e) == 0
    ensures |s.transfers| <= i ==> Weight(Settlements(i), e) == 0 && Weight(Recoveries(i), e) == 0
  {
  }

  lemma ApplyOwed(s: Store, e: Effect)
    requires Applicable(s, e) && OwnCredit(s, e) && Linked(s)
    ensures
      var t := Touched(s, e);
      OwedBy(Apply(s, e)) - OwedBy(s)
        == if t < |s.transfers|
           then OwedOn(Apply(s, e).transfers, Apply(s, e).txns, t) - OwedOn(s.transfers, s.txns, t) else 0
  {
    hide Apply, Applicable, Count, Weight, LinkedTo;
    var s' := Apply(s, e);
    var t := Touched(s, e);
    var n := |s.transfers|;
    ApplyCreates(s, e);
    ApplyIsLater(s, e);
    forall i | 0 <= i < n
      ensures s'.transfers[i].amount == s.transfers[i].amount
      ensures i != t ==> Count(s'.txns, i, TRANSFER_IN) == Count(s.txns, i, TRANSFER_IN)
      ensures Count(s'.txns, i, TRANSFER_OUT) == Count(s.txns, i, TRANSFER_OUT)
    {
      ApplyCounts(s, e, i);
      WeightsElsewhere(s, e, i);
      assert TransferLater(s.transfers[i], s'.transfers[i]);
    }
    OwedChanges(s, s', t, n);
    if |s'.transfers| == n + 1 {
      ApplyCounts(s, e, n);
      UnknownHasNoRecords(s.transfers, s.txns, n, TRANSFER_IN);
      WeightsElsewhere(s, e, n);
    }
  }

  /** The amount that a change credits on a transfer that is not owed it: one without a debit, or with a
      credit already. */
  function Unowed(s: Store, e: Effect): int {
    if (e.Settled? || e.Recovered?)
       && !(HasRecord(s.txns, e.transfer, TRANSFER_OUT) && !HasRecord(s.txns, e.transfer, TRANSFER_IN))
    then e.amount else 0
  }

  lemma CreditMovesTotalAndOwed(s: Store, e: Effect)
    requires Applicable(s, e) && OwnCredit(s, e) && Linked(s) && (e.Settled? || e.Recovered?)
    ensures
      Books(Apply(s, e)) == Books(s) + Unowed(s, e)
  {
    hide Apply, Count, HasRecord, Linked, OwedBy, Total;
    ApplyOwed(s, e);
    ApplyTotals(s, e);
    ApplyCounts(s, e, e.transfer);
    CountFindsRecord(s.txns, e.transfer, TRANSFER_IN);
    CountFindsRecord(s.txns, e.transfer, TRANSFER_OUT);
    ApplyIsLater(s, e);
    assert TransferLater(s.transfers[e.transfer], Apply(s, e).transfers[e.transfer]);
  }

  /** Balances plus money owed: a credit, by the consumer or a recovery, keeps the sum if and only if its
      transfer had been debited and not yet credited. */
  lemma CreditConservesIff(s: Store, e: Effect)
    requires Applicable(s, e) && OwnCredit(s, e) && Linked(s) && (e.Settled? || e.Recovered?)
    ensures
      var s' := Apply(s, e);
      Books(s') == Books(s)
      <==> HasRecord(s.txns, e.transfer, TRANSFER_OUT) && !HasRecord(s.txns, e.transfer, TRANSFER_IN)
  {
    hide HasRecord, Linked, Books, Apply;
    CreditMovesTotalAndOwed(s, e);
  }

  lemma ApplyTotalAndOwed(s: Store, e: Effect)
    requires Applicable(s, e) && OwnCredit(s, e) && Linked(s)
    ensures
      Books(Apply(s, e)) == Books(s) + Weight(DepositTotal, e) - Weight(WithdrawalTotal, e) + Unowed(s, e)
  {
    hide Apply, Count, HasRecord, Linked, OwedBy, Total;
    if e.Settled? || e.Recovered? {
      CreditMovesTotalAndOwed(s, e);
    } else {
      ApplyTotals(s, e);
      ApplyOwed(s, e);
    }
  }

  lemma SoundIsFaithful(y: System, first: nat)
    requires Sound(y, first)
    ensures Faithful(y) && Linked(y.store)
  {
  }

  /** Over the first `n` actions: all amounts credited on transfers that were not owed them at the time. */
  function Overpaid(x: Execution, n: nat): int
    requires n <= |x.actions|
  {
    if n == 0 then 0 else Overpaid(x, n - 1) + Unowed(x.states[n - 1].store, x.Effects()[n - 1])
  }

  lemma {:induction false} MoneyOwedUpTo(x: Execution, first: nat, n: nat)
    requires Sound(x.First(), first) && n <= |x.actions|
    ensures
      var h := x.Effects()[..n];
      Books(x.states[n].store)
        == Books(x.First().store) + Sum(DepositTotal, h) - Sum(WithdrawalTotal, h) + Overpaid(x, n)
  {
    hide Step, EffectOf, Apply, Sound, OwedBy, Total, Weight, OwnCredit, Unowed, Run, History, Linked, Faithful;
    if n > 0 {
      var m := n - 1;
      var y, e := x.states[m], x.Effects()[m];
      MoneyOwedUpTo(x, first, m);
      ExecutionIsRun(x, 0, m);
      RunKeepsSound(x.First(), x.actions[0..m], first);
      SoundIsFaithful(y, first);
      SettlesOwnTransfer(y, x.actions[m]);
      assert x.states[n] == Step(y, x.actions[m]);
      StepAppliesEffect(y, x.actions[m]);
      ApplyTotalAndOwed(y.store, e);
      assert x.Effects()[..n] == x.Effects()[..m] + [e];
      SumAppend(DepositTotal, x.Effects()[..m], e);
      SumAppend(WithdrawalTotal, x.Effects()[..m], e);
    }
  }

  /** The law of money owed, over every interleaving: balances plus owed money follow deposits and
      withdrawals, plus exactly what was credited on transfers without a debit or with a credit. */
  lemma MoneyOwedLaw(x: Execution, first: nat)
    requires Sound(x.First(), first)
    ensures Books(x.Last().store)
         == Books(x.First().store) + Sum(DepositTotal, x.Effects()) - Sum(WithdrawalTotal, x.Effects())
            + Overpaid(x, |x.actions|)
  {
    hide Step, EffectOf, Sound, Books, Overpaid;
    MoneyOwedUpTo(x, first, |x.actions|);
    assert x.Effects()[..|x.actions|] == x.Effects();
  }

  // ------------------------------------------ no overpayment of old ones

  /** Amounts that the consumer credits to transfers from `first` on. */
  function SecondCredits(h: seq<Effect>, first: nat): int {
    if h == [] then 0 else
      var e := h[|h| - 1];
      SecondCredits(h[..|h| - 1], first) + if e.Settled? && first <= e.transfer then e.amount else 0
  }

  lemma SecondCreditsAppend(h: seq<Effect>, e: Effect, first: nat)
    ensures SecondCredits(h + [e], first)
         == SecondCredits(h, first) + if e.Settled? && first <= e.transfer then e.amount else 0
  {
    assert (h + [e])[..|h|] == h;
  }

  /** A transfer that is still PENDING has been debited and not credited. */
  predicate OwedWhilePending(s: Store, t: TransferId) {
    t < |s.transfers|
    && (s.transfers[t].status == PENDING ==>
          HasRecord(s.txns, t, TRANSFER_OUT) && !HasRecord(s.txns, t, TRANSFER_IN))
  }

  lemma ApplyKeepsOwedWhilePending(s: Store, e: Effect, t: TransferId)
    requires Applicable(s, e) && OwedWhilePending(s, t)
    ensures OwedWhilePending(Apply(s, e), t)
  {
    hide Count, HasRecord, FindKey;
    ApplyIsLater(s, e);
    assert TransferLater(s.transfers[t], Apply(s, e).transfers[t]);
    ApplyCounts(s, e, t);
    CountFindsRecord(s.txns, t, TRANSFER_IN);
    CountFindsRecord(s.txns, t, TRANSFER_OUT);
    CountFindsRecord(Apply(s, e).txns, t, TRANSFER_IN);
    CountFindsRecord(Apply(s, e).txns, t, TRANSFER_OUT);
  }

  /** With uninterrupted deliveries and recoveries only transfers created since are credited unowed. */
  lemma OnlyNewOnesUnowed(s: Store, e: Effect, first: nat)
    requires Applicable(s, e) && Careful(s, e) && BornWhole(s, first)
    requires forall t :: 0 <= t < first ==> OwedWhilePending(s, t)
    ensures Unowed(s, e) == if e.Settled? && first <= e.transfer then e.amount else 0
  {
    hide Count, HasRecord, FindKey;
    if e.Settled? || e.Recovered? {
      CountFindsRecord(s.txns, e.transfer, TRANSFER_IN);
      if e.transfer < first {
        assert OwedWhilePending(s, e.transfer);
      }
    }
  }

  predicate Settleable(y: System, first: nat) {
    && Sound(y, first) && AtRest(y) && first <= |y.store.transfers|
    && forall t :: 0 <= t < first ==> OwedWhilePending(y.store, t)
  }

  lemma RecoverySettlesNothing(y: System, b: Block)
    requires b.Recovery?
    ensures OwnCredit(y.store, BlockEffect(y, b))
  {
    hide HasRecord;
  }

  lemma WholeSettlesOwn(y: System, x: Delivered)
    requires Faithful(y)
    ensures OwnCredit(y.store, WholeEffect(y, x))
  {
    if Deliverable(y, x.msg) {
      assert MessageFaithful(y.store, y.published[x.msg]);
    }
  }

  lemma AdvanceKeepsSound(y: System, b: Block, first: nat)
    requires Sound(y, first) && AtRest(y)
    ensures Sound(Advance(y, b), first) && OwnCredit(y.store, BlockEffect(y, b))
  {
    hide Step, EffectOf, Sound, Faithful, Run, RecoverEffect;
    var actions := BlockIsActions(y, b);
    RunKeepsSound(y, actions, first);
    SoundIsFaithful(y, first);
    match b
    case Other(a) => SettlesOwnTransfer(y, a);
    case Whole(x) => WholeSettlesOwn(y, x);
    case Recovery(k, end) => RecoverySettlesNothing(y, b);
  }

  lemma AdvanceKeepsSettleable(y: System, b: Block, first: nat)
    requires Settleable(y, first) && (b.Other? ==> !OfWorkers(b.action))
    ensures Settleable(Advance(y, b), first)
  {
    hide Advance, BlockEffect, Apply, OwedWhilePending, Sound, AtRest;
    var e := BlockEffect(y, b);
    AdvanceApplies(y, b);
    AdvanceKeepsRest(y, b);
    AdvanceKeepsSound(y, b, first);
    forall t | 0 <= t < first ensures OwedWhilePending(Advance(y, b).store, t) {
      ApplyKeepsOwedWhilePending(y.store, e, t);
    }
    ApplyIsLater(y.store, e);
  }

  lemma {:induction false} BlocksKeepSettleable(y: System, blocks: seq<Block>, first: nat)
    requires Uninterrupted(blocks) && Settleable(y, first)
    ensures Settleable(RunBlocks(y, blocks), first)
  {
    hide Advance, Settleable;
    if blocks != [] {
      var n := |blocks| - 1;
      BlocksKeepSettleable(y, blocks[..n], first);
      AdvanceKeepsSettleable(RunBlocks(y, blocks[..n]), blocks[n], first);
    }
  }

  /** The change in balances plus owed money that one block makes. */
  lemma AdvanceMovesBooks(y: System, b: Block, first: nat)
    requires Settleable(y, first) && (b.Other? ==> !OfWorkers(b.action))
    ensures
      var e := BlockEffect(y, b);
      Books(Advance(y, b).store)
        == Books(y.store) + Weight(DepositTotal, e) - Weight(WithdrawalTotal, e)
           + if e.Settled? && first <= e.transfer then e.amount else 0
  {
    hide Advance, BlockEffect, Apply, OwedWhilePending, Careful, Faithful, Evidence, SweepsKnow, Linked, BornWhole;
    hide Books, Weight, OwnCredit, Unowed, AtRest;
    AdvanceApplies(y, b);
    BlocksAreCareful(y, b);
    AdvanceKeepsSound(y, b, first);
    ApplyTotalAndOwed(y.store, BlockEffect(y, b));
    OnlyNewOnesUnowed(y.store, BlockEffect(y, b), first);
  }

  /** Conservation over a whole run with uninterrupted deliveries and recoveries, in a store whose old
      PENDING transfers have been debited and not credited: balances plus owed money follow deposits and
      withdrawals, plus only what the consumer credits again to transfers created since. */
  lemma {:induction false} MoneyOwedIsPaid(y: System, blocks: seq<Block>, first: nat)
    requires Uninterrupted(blocks) && Settleable(y, first)
    ensures
      var h := BlockHistory(y, blocks);
      Books(RunBlocks(y, blocks).store)
        == Books(y.store) + Sum(DepositTotal, h) - Sum(WithdrawalTotal, h) + SecondCredits(h, first)
  {
    hide Advance, BlockEffect, Settleable, Books, Weight;
    if blocks != [] {
      var n := |blocks| - 1;
      var before := RunBlocks(y, blocks[..n]);
      var h := BlockHistory(y, blocks[..n]);
      var e := BlockEffect(before, blocks[n]);
      MoneyOwedIsPaid(y, blocks[..n], first);
      BlocksKeepSettleable(y, blocks[..n], first);
      AdvanceMovesBooks(before, blocks[n], first);
      SumAppend(DepositTotal, h, e);
      SumAppend(WithdrawalTotal, h, e);
      SecondCreditsAppend(h, e, first);
    }
  }
}
