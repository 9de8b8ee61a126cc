/** How often a transfer is credited, however deliveries, crashes and sweeps interleave: exactly when a
    credit is a second one, told by what it overtook between another operation's reads and commit. */
module Settlement {
  import opened Types
  import opened Stores
  import opened Platform
  import opened Histories
  import opened Evolution
  import opened Origins
  import opened Deliveries
  import opened Records

  /** The consumer credits transfer `t` at `j`. */
  predicate SettledAt(x: Execution, j: nat, t: TransferId) {
    j < |x.actions| && x.Effects()[j].Settled? && x.Effects()[j].transfer == t
  }

  /** A recovery credits transfer `t` at `j`. */
  predicate RecoveredAt(x: Execution, j: nat, t: TransferId) {
    j < |x.actions| && x.Effects()[j].Recovered? && x.Effects()[j].transfer == t
  }

  predicate CreditedAt(x: Execution, j: nat, t: TransferId) {
    SettledAt(x, j, t) || RecoveredAt(x, j, t)
  }

  lemma SettlementIs(x: Execution, j: nat, t: TransferId)
    requires SettledAt(x, j, t)
    ensures j < |x.actions| && x.actions[j].Settle?
    ensures
      var y, d := x.states[j], x.actions[j].delivery;
      && d < |y.deliveries| && y.deliveries[d].Settling? && y.deliveries[d].transfer == t
      && Matches(y.store, y.deliveries[d].to) && x.Effects()[j].to == y.deliveries[d].to.id
  {
  }

  lemma RecoveryIs(x: Execution, j: nat, t: TransferId)
    requires RecoveredAt(x, j, t)
    ensures x.actions[j].Recover?
    ensures
      var y, k := x.states[j], x.actions[j].sweep;
      && k < |y.sweeps| && y.sweeps[k].list != [] && y.sweeps[k].list[0] == t && y.sweeps[k].stage == CreditSession
  {
  }

  // ------------------------------------------------ what a credit leaves

  lemma CreditApplies(s: Store, e: Effect)
    requires Applicable(s, e) && (e.Settled? || e.Recovered?)
    ensures
      var s' := Apply(s, e);
      && e.transfer < |s'.transfers| && s'.transfers[e.transfer].status == COMPLETED
      && HasRecord(s'.txns, e.transfer, TRANSFER_IN)
  {
    var r := Apply(s, e).txns[|s.txns|];
    assert r in Apply(s, e).txns && r.Concerns(e.transfer, TRANSFER_IN);
  }

  lemma {:induction false} RecordKept(x: Execution, i: nat, j: nat, t: TransferId)
    requires i <= j <= |x.actions| && t < |x.states[i].store.transfers|
    ensures t < |x.states[j].store.transfers|
    ensures HasRecord(x.states[i].store.txns, t, TRANSFER_IN) ==> HasRecord(x.states[j].store.txns, t, TRANSFER_IN)
    decreases j
  {
    hide Step, EffectOf, Apply, HasRecord;
    if i < j {
      RecordKept(x, i, j - 1, t);
      var y := x.states[j - 1];
      assert x.states[j] == Step(y, x.actions[j - 1]);
      StepAppliesEffect(y, x.actions[j - 1]);
      RecordsAfter(y.store, EffectOf(y, x.actions[j - 1]), t);
      ApplyIsLater(y.store, EffectOf(y, x.actions[j - 1]));
    }
  }

  /** From a credit on, the transfer is not PENDING and the credit is on record. */
  lemma CreditStays(x: Execution, k: nat, j: nat, t: TransferId)
    requires CreditedAt(x, k, t) && k < j <= |x.actions|
    ensures t < |x.states[j].store.transfers| && x.states[j].store.transfers[t].status != PENDING
    ensures HasRecord(x.states[j].store.txns, t, TRANSFER_IN)
  {
    hide Step, EffectOf, Apply, HasRecord, Run, History;
    var y := x.states[k];
    assert x.states[k + 1] == Step(y, x.actions[k]);
    StepAppliesEffect(y, x.actions[k]);
    CreditApplies(y.store, EffectOf(y, x.actions[k]));
    RecordKept(x, k + 1, j, t);
    ExecutionIsRun(x, k + 1, j);
    RunIsLater(x.states[k + 1], x.actions[k + 1..j]);
    assert TransferLater(x.states[k + 1].store.transfers[t], x.states[j].store.transfers[t]);
  }

  // --------------------------------------------- when a credit is second

  lemma NoCreditByReading(y: System, a: Action)
    requires
      || a.Deliver? || a.LocateReceiver?
      || (a.Recover? && a.sweep < |y.sweeps| && y.sweeps[a.sweep].stage == CreditCheck)
    ensures EffectOf(y, a) == NoEffect
  {
  }

  /** An earlier credit of the transfer commits after the handler's transfer read: before it, the handler
      would have found the transfer resolved. */
  lemma CreditAfterRead(x: Execution, k: nat, i1: nat, t: TransferId)
    requires CreditedAt(x, k, t) && i1 < |x.actions| && x.actions[i1].Deliver?
    requires t < |x.states[i1].store.transfers| && x.states[i1].store.transfers[t].status == PENDING
    ensures i1 < k
  {
    hide Step, EffectOf, HasRecord;
    if k < i1 {
      CreditStays(x, k, i1, t);
    } else if k == i1 {
      NoCreditByReading(x.states[k], x.actions[k]);
    }
  }

  /** An earlier settlement of the transfer commits before the handler's receiver read: after it, the
      version check would have refused the handler. */
  lemma SettlementBeforeRead(x: Execution, k: nat, j: nat, t: TransferId, i2: nat, w: Snapshot)
    requires Faithful(x.First()) && SettledAt(x, k, t) && SettledAt(x, j, t) && k < j && i2 < j
    requires x.actions[i2].LocateReceiver? && w.id < |x.states[i2].store.wallets| && w == Read(x.states[i2].store, w.id)
    requires w == x.states[j].deliveries[x.actions[j].delivery].to
    ensures k < i2
  {
    hide Step, EffectOf, HasRecord, Run, History, Faithful, Matches;
    if k == i2 {
      NoCreditByReading(x.states[k], x.actions[k]);
    } else if i2 < k {
      SettlementIs(x, j, t);
      SettlesOwnTransferAlways(x, k);
      SettlesOwnTransferAlways(x, j);
      ExecutionIsRun(x, k, j);
      RunIsLater(x.states[k], x.actions[k..j]);
      assert TransferLater(x.states[k].store.transfers[t], x.states[j].store.transfers[t]);
      ExecutionIsRun(x, i2, k);
      RunIsLater(x.states[i2], x.actions[i2..k]);
      assert WalletLater(x.states[i2].store.wallets[w.id], x.states[k].store.wallets[w.id]);
      OneCommitPerVersion(x, k, j, w);
    }
  }

  lemma SettlementReads(x: Execution, d: nat, i1: nat, i2: nat)
    requires TransferReadAt(x, d, i1) && ReceiverReadAt(x, d, i2)
    ensures i1 < |x.actions| && x.actions[i1].Deliver? && i2 < |x.actions| && x.actions[i2].LocateReceiver?
  {
  }

  /** A settlement is a second credit exactly when another credit overtook it: a settlement that committed
      between its handler's transfer read and receiver read, or a recovery that committed after the
      transfer read.  The version check stops every other settlement and the status check every
      other credit. */
  lemma SecondSettlementIff(x: Execution, j: nat, t: TransferId) returns (i1: nat, i2: nat)
    requires Faithful(x.First()) && x.First().deliveries == [] && SettledAt(x, j, t)
    ensures x.actions[j].Settle? && i1 < i2 < j
    ensures TransferReadAt(x, x.actions[j].delivery, i1) && ReceiverReadAt(x, x.actions[j].delivery, i2)
    ensures forall k :: 0 <= k < j && SettledAt(x, k, t) ==> i1 < k < i2
    ensures forall k :: 0 <= k < j && RecoveredAt(x, k, t) ==> i1 < k
    ensures (exists k :: 0 <= k < j && SettledAt(x, k, t)) <==> (exists k :: i1 < k < i2 && SettledAt(x, k, t))
    ensures
      (exists k :: 0 <= k < j && CreditedAt(x, k, t))
      <==> ((exists k :: i1 < k < i2 && SettledAt(x, k, t)) || (exists k :: i1 < k < j && RecoveredAt(x, k, t)))
  {
    hide Step, EffectOf, HasRecord, Faithful, SettledAt, RecoveredAt, TransferReadAt, ReceiverReadAt;
    SettlementIs(x, j, t);
    i1, i2 := HandlerReads(x, x.actions[j].delivery, j);
    SettlementReads(x, x.actions[j].delivery, i1, i2);
    forall k | 0 <= k < j && SettledAt(x, k, t) ensures i1 < k < i2 {
      CreditAfterRead(x, k, i1, t);
      SettlementBeforeRead(x, k, j, t, i2, x.states[j].deliveries[x.actions[j].delivery].to);
    }
    forall k | 0 <= k < j && RecoveredAt(x, k, t) ensures i1 < k {
      CreditAfterRead(x, k, i1, t);
    }
    assert forall k :: SettledAt(x, k, t) || RecoveredAt(x, k, t) ==> CreditedAt(x, k, t);
  }

  lemma CreditAfterCheck(x: Execution, k: nat, i: nat, sweep: nat, list: seq<TransferId>, t: TransferId)
    requires CreditedAt(x, k, t) && CheckedAt(x, sweep, list, i) && !HasRecord(x.states[i].store.txns, t, TRANSFER_IN)
    ensures i < k
  {
    hide Step, EffectOf, HasRecord;
    if k < i {
      CreditStays(x, k, i, t);
    } else if k == i {
      NoCreditByReading(x.states[k], x.actions[k]);
    }
  }

  /** A recovery's credit is a second credit exactly when another credit of the transfer committed
      between its credit check and its session. */
  lemma SecondRecoveryIff(x: Execution, j: nat, t: TransferId) returns (i: nat)
    requires x.First().sweeps == [] && RecoveredAt(x, j, t)
    ensures x.actions[j].Recover? && x.actions[j].sweep < |x.states[j].sweeps| && i < j
    ensures CheckedAt(x, x.actions[j].sweep, x.states[j].sweeps[x.actions[j].sweep].list, i)
    ensures forall k :: 0 <= k < j && CreditedAt(x, k, t) ==> i < k
    ensures
      (exists k :: 0 <= k < j && CreditedAt(x, k, t)) <==> (exists k :: i < k < j && CreditedAt(x, k, t))
  {
    hide Step, EffectOf, HasRecord, CreditedAt, Apply;
    RecoveryIs(x, j, t);
    i := RecoveryChecked(x, x.actions[j].sweep, j);
    forall k | 0 <= k < j && CreditedAt(x, k, t) ensures i < k {
      CreditAfterCheck(x, k, i, x.actions[j].sweep, x.states[j].sweeps[x.actions[j].sweep].list, t);
    }
  }

  lemma FailureKnows(y: System, a: Action, first: nat)
    requires Sound(y, first) && a.Recover? && EffectOf(y, a).MarkedFailed?
    ensures
      var e, k := EffectOf(y, a), a.sweep;
      && k < |y.sweeps| && y.sweeps[k].list != [] && y.sweeps[k].list[0] == e.transfer
      && y.sweeps[k].stage == FailedSave(e.reason)
      && (e.reason == NoDebitFoundDuringRecovery ==> !HasRecord(y.store.txns, e.transfer, TRANSFER_OUT))
      && (e.reason == RecoveryFailed ==> HasRecord(y.store.txns, e.transfer, TRANSFER_OUT))
  {
    hide HasRecord, Faithful, Linked, Evidence, BornWhole;
    assert SweepKnows(y.store, y.sweeps[a.sweep], first);
  }

  /** Without a credit in between no credit comes on record. */
  lemma {:induction false} RecordOnlyByCredit(x: Execution, i: nat, j: nat, t: TransferId)
    requires i <= j <= |x.actions| && t < |x.states[i].store.transfers|
    requires !HasRecord(x.states[i].store.txns, t, TRANSFER_IN)
    ensures t < |x.states[j].store.transfers|
    ensures HasRecord(x.states[j].store.txns, t, TRANSFER_IN) ==> exists k :: i <= k < j && CreditedAt(x, k, t)
    decreases j
  {
    hide Step, EffectOf, Apply, HasRecord, Count;
    if i < j {
      RecordOnlyByCredit(x, i, j - 1, t);
      var y := x.states[j - 1];
      var e := EffectOf(y, x.actions[j - 1]);
      assert x.states[j] == Step(y, x.actions[j - 1]);
      StepAppliesEffect(y, x.actions[j - 1]);
      ApplyIsLater(y.store, e);
      ApplyCounts(y.store, e, t);
      CountFindsRecord(y.store.txns, t, TRANSFER_IN);
      CountFindsRecord(x.states[j].store.txns, t, TRANSFER_IN);
      assert x.Effects()[j - 1] == e;
      assert Weight(Settlements(t), e) + Weight(Recoveries(t), e) != 0 ==> CreditedAt(x, j - 1, t);
    }
  }

  /** A recovery that has found no credit saves FAILED.  A credit is then on record all the same exactly
      when one committed since the check; the reasons about the debit are true. */
  lemma FailedWithCreditIff(x: Execution, j: nat, first: nat) returns (i: nat)
    requires Sound(x.First(), first) && x.First().sweeps == [] && j < |x.actions|
    requires x.actions[j].Recover? && x.Effects()[j].MarkedFailed?
    ensures x.actions[j].sweep < |x.states[j].sweeps| && i < j
    ensures CheckedAt(x, x.actions[j].sweep, x.states[j].sweeps[x.actions[j].sweep].list, i)
    ensures
      var t, s := x.Effects()[j].transfer, x.states[j].store;
      && (HasRecord(s.txns, t, TRANSFER_IN) <==> exists k :: i < k < j && CreditedAt(x, k, t))
      && (x.Effects()[j].reason == NoDebitFoundDuringRecovery ==> !HasRecord(s.txns, t, TRANSFER_OUT))
      && (x.Effects()[j].reason == RecoveryFailed ==> HasRecord(s.txns, t, TRANSFER_OUT))
  {
    hide Step, EffectOf, HasRecord, CreditedAt, Apply, Sound, Run, History;
    var t := x.Effects()[j].transfer;
    ExecutionIsRun(x, 0, j);
    RunKeepsSound(x.First(), x.actions[0..j], first);
    FailureKnows(x.states[j], x.actions[j], first);
    i := RecoveryChecked(x, x.actions[j].sweep, j);
    RecordOnlyByCredit(x, i, j, t);
    if exists k :: i < k < j && CreditedAt(x, k, t) {
      var k :| i < k < j && CreditedAt(x, k, t);
      CreditStays(x, k, j, t);
    } else if exists k :: i <= k < j && CreditedAt(x, k, t) {
      var k :| i <= k < j && CreditedAt(x, k, t);
      CreditAfterCheck(x, k, i, x.actions[j].sweep, x.states[j].sweeps[x.actions[j].sweep].list, t);
    }
  }

  lemma SaveIs(y: System, a: Action)
    requires a.SaveFailed? && EffectOf(y, a).MarkedFailed?
    ensures
      a.delivery < |y.deliveries| && y.deliveries[a.delivery].Failing?
      && y.deliveries[a.delivery].transfer == EffectOf(y, a).transfer
  {
  }

  lemma NotCreditedByReading(x: Execution, i: nat, t: TransferId)
    requires i < |x.actions| && x.actions[i].Deliver?
    ensures !CreditedAt(x, i, t)
  {
    NoCreditByReading(x.states[i], x.actions[i]);
  }

  /** A handler saves FAILED on a transfer that it read PENDING.  A credit is then on record all the same exactly
      when one was on record at that read or one committed since. */
  lemma HandlerFailedWithCreditIff(x: Execution, j: nat) returns (i: nat)
    requires x.First().deliveries == [] && j < |x.actions|
    requires x.actions[j].SaveFailed? && x.Effects()[j].MarkedFailed?
    ensures i < j && TransferReadAt(x, x.actions[j].delivery, i)
    ensures
      var t := x.Effects()[j].transfer;
      && t < |x.states[i].store.transfers| && x.states[i].store.transfers[t].status == PENDING
      && (HasRecord(x.states[j].store.txns, t, TRANSFER_IN)
          <==> (HasRecord(x.states[i].store.txns, t, TRANSFER_IN) || exists k :: i < k < j && CreditedAt(x, k, t)))
  {
    hide Step, EffectOf, HasRecord, CreditedAt, Apply;
    var t := x.Effects()[j].transfer;
    SaveIs(x.states[j], x.actions[j]);
    i := FailingRead(x, x.actions[j].delivery, j);
    RecordKept(x, i, j, t);
    if exists k :: i < k < j && CreditedAt(x, k, t) {
      var k :| i < k < j && CreditedAt(x, k, t);
      CreditStays(x, k, j, t);
    } else if !HasRecord(x.states[i].store.txns, t, TRANSFER_IN) {
      RecordOnlyByCredit(x, i, j, t);
      NotCreditedByReading(x, i, t);
    }
  }

  /** So FAILED never means that the money of a transfer made by the service has not arrived: from its creation on
      the credit is on record. */
  lemma FailedThoughCredited(x: Execution, s: Store, now: Time, t: TransferId)
    requires x.First() == Boot(s, now) && EventsFaithful(s) && Linked(s) && Evidence(s)
    requires |s.transfers| <= t < |x.Last().store.transfers| && x.Last().store.transfers[t].status == FAILED
    ensures HasRecord(x.Last().store.txns, t, TRANSFER_IN)
    ensures x.Last().store.transfers[t].failureReason.Some?
  {
    hide Step, EffectOf, Run, History, Count, HasRecord, Faithful, EventsFaithful, Linked, SweepsKnow;
    WholeExecutionIsRun(x);
    BootIsSound(s, now);
    RunKeepsSound(x.First(), x.actions, |s.transfers|);
    CountFindsRecord(x.Last().store.txns, t, TRANSFER_IN);
  }

  // -------------------------------------------------- at most one credit

  predicate SettlementOvertaken(x: Execution, k: nat, j: nat, t: TransferId, i1: nat, i2: nat) {
    && SettledAt(x, j, t) && x.actions[j].Settle?
    && TransferReadAt(x, x.actions[j].delivery, i1) && ReceiverReadAt(x, x.actions[j].delivery, i2) && i1 < i2 < j
    && ((SettledAt(x, k, t) && i1 < k < i2) || (RecoveredAt(x, k, t) && i1 < k < j))
  }

  predicate RecoveryOvertaken(x: Execution, k: nat, j: nat, t: TransferId, i: nat) {
    && RecoveredAt(x, j, t) && x.actions[j].Recover? && x.actions[j].sweep < |x.states[j].sweeps|
    && CheckedAt(x, x.actions[j].sweep, x.states[j].sweeps[x.actions[j].sweep].list, i)
    && CreditedAt(x, k, t) && i < k < j
  }

  /** Credit `k` overtakes credit `j`: it commits between the reads on which `j` relies and the point from
      which on a check protects `j` from it.  For a recovery that point is its commit; for a
      settlement it is the commit against recoveries, the receiver read against settlements. */
  ghost predicate Overtakes(x: Execution, k: nat, j: nat, t: TransferId) {
    || (exists i1, i2 :: SettlementOvertaken(x, k, j, t, i1, i2))
    || (exists i :: RecoveryOvertaken(x, k, j, t, i))
  }

  /** Of two credits of one transfer the earlier one has overtaken the later one. */
  lemma EarlierOvertakes(x: Execution, k: nat, j: nat, t: TransferId)
    requires CreditedAt(x, k, t) && CreditedAt(x, j, t)
    requires SettledAt(x, j, t) ==> Faithful(x.First()) && x.First().deliveries == []
    requires RecoveredAt(x, j, t) ==> x.First().sweeps == []
    ensures k < j <==> Overtakes(x, k, j, t)
  {
    hide Faithful, SettledAt, RecoveredAt, TransferReadAt, ReceiverReadAt, CheckedAt;
    if k < j {
      if SettledAt(x, j, t) {
        var i1, i2 := SecondSettlementIff(x, j, t);
        assert SettlementOvertaken(x, k, j, t, i1, i2);
      } else {
        var i := SecondRecoveryIff(x, j, t);
        assert RecoveryOvertaken(x, k, j, t, i);
      }
    }
  }

  /** Some settlement of the transfer overtakes another one. */
  ghost predicate SettlementsCross(x: Execution, t: TransferId) {
    exists k, j :: SettledAt(x, k, t) && SettledAt(x, j, t) && Overtakes(x, k, j, t)
  }

  ghost predicate RecoveriesCross(x: Execution, t: TransferId) {
    exists k, j :: RecoveredAt(x, k, t) && RecoveredAt(x, j, t) && Overtakes(x, k, j, t)
  }

  ghost predicate CreditsCross(x: Execution, t: TransferId) {
    exists k, j :: CreditedAt(x, k, t) && CreditedAt(x, j, t) && Overtakes(x, k, j, t)
  }

  /** The consumer credits a transfer at most once exactly when none of its settlements has committed
      between another's transfer read and receiver read. */
  lemma SettledOnceIff(x: Execution, t: TransferId)
    requires Faithful(x.First()) && x.First().deliveries == []
    ensures Sum(Settlements(t), x.Effects()) <= 1 <==> !SettlementsCross(x, t)
  {
    hide Step, EffectOf, Faithful, Overtakes;
    var h := x.Effects();
    SumAtMostOne(Settlements(t), h);
    assert forall i :: 0 <= i < |h| ==> (Weight(Settlements(t), h[i]) != 0 <==> SettledAt(x, i, t));
    forall k: nat, j: nat | SettledAt(x, k, t) && SettledAt(x, j, t) ensures k < j <==> Overtakes(x, k, j, t) {
      EarlierOvertakes(x, k, j, t);
    }
  }

  /** Recoveries credit a transfer at most once exactly when none of its recoveries has committed
      between another's credit check and session. */
  lemma RecoveredOnceIff(x: Execution, t: TransferId)
    requires x.First().sweeps == []
    ensures Sum(Recoveries(t), x.Effects()) <= 1 <==> !RecoveriesCross(x, t)
  {
    hide Step, EffectOf, Faithful, Overtakes;
    var h := x.Effects();
    SumAtMostOne(Recoveries(t), h);
    assert forall i :: 0 <= i < |h| ==> (Weight(Recoveries(t), h[i]) != 0 <==> RecoveredAt(x, i, t));
    forall k: nat, j: nat | RecoveredAt(x, k, t) && RecoveredAt(x, j, t) ensures k < j <==> Overtakes(x, k, j, t) {
      EarlierOvertakes(x, k, j, t);
    }
  }

  /** Credits and debits on record grow by settlements, recoveries and the transfer's creation. */
  lemma {:induction false} RecordsOfRun(y: System, actions: seq<Action>, t: TransferId)
    ensures
      var s := Run(y, actions).store;
      var h := History(y, actions);
      var created := When(|y.store.transfers| <= t < |s.transfers|, 1);
      && |y.store.transfers| <= |s.transfers|
      && Count(s.txns, t, TRANSFER_IN)
         == Count(y.store.txns, t, TRANSFER_IN) + Sum(Settlements(t), h) + Sum(Recoveries(t), h) + created
      && Count(s.txns, t, TRANSFER_OUT) == Count(y.store.txns, t, TRANSFER_OUT) + created
  {
    hide Step, EffectOf, Apply, Count, Weight;
    if actions != [] {
      var n := |actions| - 1;
      var before := Run(y, actions[..n]);
      var e := EffectOf(before, actions[n]);
      RecordsOfRun(y, actions[..n], t);
      StepAppliesEffect(before, actions[n]);
      ApplyCounts(before.store, e, t);
      ApplyCreates(before.store, e);
      SumAppend(Settlements(t), History(y, actions[..n]), e);
      SumAppend(Recoveries(t), History(y, actions[..n]), e);
    }
  }

  /** A transfer that has no credit at the start has at most one at the end exactly when no credit of
      it, by the consumer or a recovery, has overtaken another. */
  lemma CreditedOnceIff(x: Execution, t: TransferId)
    requires Faithful(x.First()) && x.First().deliveries == [] && x.First().sweeps == []
    requires t < |x.First().store.transfers| && Count(x.First().store.txns, t, TRANSFER_IN) == 0
    ensures Count(x.Last().store.txns, t, TRANSFER_IN) == Sum(Credits(t), x.Effects())
    ensures Count(x.Last().store.txns, t, TRANSFER_IN) <= 1 <==> !CreditsCross(x, t)
  {
    hide Step, EffectOf, Faithful, Overtakes, Run, History, Count;
    var h := x.Effects();
    WholeExecutionIsRun(x);
    RecordsOfRun(x.First(), x.actions, t);
    CreditsAreBoth(h, t);
    SumAtMostOne(Credits(t), h);
    assert forall i :: 0 <= i < |h| ==> (Weight(Credits(t), h[i]) != 0 <==> CreditedAt(x, i, t));
    forall k: nat, j: nat | CreditedAt(x, k, t) && CreditedAt(x, j, t) ensures k < j <==> Overtakes(x, k, j, t) {
      EarlierOvertakes(x, k, j, t);
    }
  }

  // ------------------------------------ transfers made by the service

  lemma NoRecordsYet(s: Store, t: TransferId)
    requires Linked(s) && |s.transfers| <= t
    ensures Count(s.txns, t, TRANSFER_IN) == 0 && Count(s.txns, t, TRANSFER_OUT) == 0
  {
    UnknownHasNoRecords(s.transfers, s.txns, t, TRANSFER_IN);
    UnknownHasNoRecords(s.transfers, s.txns, t, TRANSFER_OUT);
  }

  lemma NoRecoveryOnceBorn(y: System, a: Action, first: nat, t: TransferId)
    requires Sound(y, first) && first <= t
    ensures Weight(Recoveries(t), EffectOf(y, a)) == 0
  {
    hide HasRecord, FindKey, Faithful, Linked, Evidence, BornWhole;
    if a.Recover? && a.sweep < |y.sweeps| {
      assert SweepKnows(y.store, y.sweeps[a.sweep], first);
    }
  }

  /** No recovery credits a transfer that was credited when it was created. */
  lemma NeverRecovered(x: Execution, first: nat, t: TransferId)
    requires Sound(x.First(), first) && first <= t
    ensures Sum(Recoveries(t), x.Effects()) == 0
  {
    hide Step, EffectOf, Run, History, Sound;
    var h := x.Effects();
    SumNonNegative(Recoveries(t), h);
    forall j | 0 <= j < |h| ensures Weight(Recoveries(t), h[j]) == 0 {
      ExecutionIsRun(x, 0, j);
      RunKeepsSound(x.First(), x.actions[0..j], first);
      NoRecoveryOnceBorn(x.states[j], x.actions[j], first, t);
    }
  }

  /** Every transfer that `transfer` created since boot has one debit and is never credited by a sweep.  It
      has one credit, plus one for every settlement; while it is PENDING there is none, and
      there is at most one exactly when none of them overtook another. */
  lemma CreatedTransferCredits(x: Execution, s: Store, now: Time, t: TransferId)
    requires x.First() == Boot(s, now) && EventsFaithful(s) && Linked(s) && Evidence(s)
    requires |s.transfers| <= t < |x.Last().store.transfers|
    ensures
      var s' := x.Last().store;
      var settled := Sum(Settlements(t), x.Effects());
      && 0 <= settled
      && Sum(Recoveries(t), x.Effects()) == 0
      && Count(s'.txns, t, TRANSFER_IN) == 1 + settled
      && Count(s'.txns, t, TRANSFER_OUT) == 1
      && (s'.transfers[t].status == PENDING ==> settled == 0)
      && (settled <= 1 <==> !SettlementsCross(x, t))
  {
    hide Run, History, Step, EffectOf, Count, EventsFaithful, Evidence, Linked, Overtakes, HasRecord;
    WholeExecutionIsRun(x);
    BootIsSound(s, now);
    RecordsOfRun(x.First(), x.actions, t);
    NoRecordsYet(s, t);
    NeverRecovered(x, |s.transfers|, t);
    SettledOnceIff(x, t);
    var h := x.Effects();
    SumNonNegative(Settlements(t), h);
    if Sum(Settlements(t), h) != 0 {
      var k :| 0 <= k < |h| && Weight(Settlements(t), h[k]) != 0;
      assert SettledAt(x, k, t);
      CreditStays(x, k, |x.actions|, t);
    }
  }
}
