/** Where running operations have their knowledge from: the moments of a handler's two reads, of a
    recovery's credit check, and of a transfer request's two wallet reads. */
module Origins {
  import opened Types
  import opened Stores
  import opened Platform

  // ---------------------------------------------------------- handlers

  /** Handler `d` starts at `i` by reading its transfer. */
  predicate TransferReadAt(x: Execution, d: nat, i: nat) {
    i < |x.actions| && x.actions[i].Deliver? && |x.states[i].deliveries| == d
  }

  /** Handler `d` reads its receiver's wallet at `i`. */
  predicate ReceiverReadAt(x: Execution, d: nat, i: nat) {
    i < |x.actions| && x.actions[i] == LocateReceiver(d)
    && d < |x.states[i].deliveries| && x.states[i].deliveries[d].Locating?
  }

  lemma StepSettling(y: System, a: Action, d: nat)
    requires d < |Step(y, a).deliveries| && Step(y, a).deliveries[d].Settling?
    ensures d < |y.deliveries|
    ensures
      || y.deliveries[d] == Step(y, a).deliveries[d]
      || (a == LocateReceiver(d) && y.deliveries[d].Locating? && Step(y, a).store == y.store
          && Step(y, a).deliveries[d] == Locate(y.store, y.deliveries[d]))
  {
    hide Apply, Poll;
  }

  lemma StepLocating(y: System, a: Action, d: nat)
    requires d < |Step(y, a).deliveries| && Step(y, a).deliveries[d].Locating?
    ensures
      || (d < |y.deliveries| && y.deliveries[d] == Step(y, a).deliveries[d])
      || (a.Deliver? && d == |y.deliveries| && Step(y, a).store == y.store
          && a.msg < |y.published| && y.published[a.msg].payload.TransferInitiated?
          && Step(y, a).deliveries[d] == Receive(y.store, a.msg, y.published[a.msg].payload))
  {
    hide Apply, Poll;
  }

  lemma {:induction false} ReceiverWasRead(x: Execution, d: nat, j: nat) returns (i: nat)
    requires x.First().deliveries == [] && j <= |x.actions|
    requires d < |x.states[j].deliveries| && x.states[j].deliveries[d].Settling?
    ensures i < j && ReceiverReadAt(x, d, i) && x.states[i + 1].store == x.states[i].store
    ensures x.states[j].deliveries[d] == Locate(x.states[i].store, x.states[i].deliveries[d])
  {
    hide Step, Locate;
    assert x.states[j] == Step(x.states[j - 1], x.actions[j - 1]);
    StepSettling(x.states[j - 1], x.actions[j - 1], d);
    if x.states[j - 1].deliveries[d] == x.states[j].deliveries[d] {
      i := ReceiverWasRead(x, d, j - 1);
    } else {
      i := j - 1;
    }
  }

  lemma {:induction false} TransferWasRead(x: Execution, d: nat, j: nat) returns (i: nat)
    requires x.First().deliveries == [] && j <= |x.actions|
    requires d < |x.states[j].deliveries| && x.states[j].deliveries[d].Locating?
    ensures i < j && TransferReadAt(x, d, i) && x.states[i + 1].store == x.states[i].store
    ensures
      var m := x.actions[i].msg;
      && m < |x.states[i].published| && x.states[i].published[m].payload.TransferInitiated?
      && x.states[j].deliveries[d] == Receive(x.states[i].store, m, x.states[i].published[m].payload)
  {
    hide Step, Receive;
    assert x.states[j] == Step(x.states[j - 1], x.actions[j - 1]);
    StepLocating(x.states[j - 1], x.actions[j - 1], d);
    if d < |x.states[j - 1].deliveries| && x.states[j - 1].deliveries[d] == x.states[j].deliveries[d] {
      i := TransferWasRead(x, d, j - 1);
    } else {
      i := j - 1;
    }
  }

  /** A handler about to run its session has first read its transfer, which was PENDING, and later its
      receiver's wallet, of which it holds the snapshot. */
  lemma HandlerReads(x: Execution, d: nat, j: nat) returns (i1: nat, i2: nat)
    requires x.First().deliveries == [] && j <= |x.actions|
    requires d < |x.states[j].deliveries| && x.states[j].deliveries[d].Settling?
    ensures i1 < i2 < j && TransferReadAt(x, d, i1) && ReceiverReadAt(x, d, i2)
    ensures
      var h := x.states[j].deliveries[d];
      && h.transfer < |x.states[i1].store.transfers|
      && x.states[i1].store.transfers[h.transfer].status == PENDING
      && h.to.id < |x.states[i2].store.wallets| && h.to == Read(x.states[i2].store, h.to.id)
    ensures x.states[i2 + 1].store == x.states[i2].store
  {
    hide Step;
    i2 := ReceiverWasRead(x, d, j);
    i1 := TransferWasRead(x, d, i2);
  }

  lemma StepFailing(y: System, a: Action, d: nat)
    requires d < |Step(y, a).deliveries| && Step(y, a).deliveries[d].Failing?
    ensures d < |y.deliveries|
    ensures
      || y.deliveries[d] == Step(y, a).deliveries[d]
      || ((y.deliveries[d].Locating? || y.deliveries[d].Settling?)
          && y.deliveries[d].transfer == Step(y, a).deliveries[d].transfer)
  {
    hide Apply, Poll, EffectOf;
  }

  /** A handler about to save FAILED has read its transfer, which was PENDING. */
  lemma {:induction false} FailingRead(x: Execution, d: nat, j: nat) returns (i: nat)
    requires x.First().deliveries == [] && j <= |x.actions|
    requires d < |x.states[j].deliveries| && x.states[j].deliveries[d].Failing?
    ensures i < j && TransferReadAt(x, d, i)
    ensures
      var t := x.states[j].deliveries[d].transfer;
      t < |x.states[i].store.transfers| && x.states[i].store.transfers[t].status == PENDING
  {
    hide Step;
    assert x.states[j] == Step(x.states[j - 1], x.actions[j - 1]);
    StepFailing(x.states[j - 1], x.actions[j - 1], d);
    var before := x.states[j - 1].deliveries[d];
    if before.Failing? {
      i := FailingRead(x, d, j - 1);
    } else if before.Settling? {
      var i2;
      i, i2 := HandlerReads(x, d, j - 1);
    } else {
      i := TransferWasRead(x, d, j - 1);
    }
  }

  // -------------------------------------------------------- recoveries

  /** Sweep `k` passes the credit check of the first transfer on `list` at `i`. */
  predicate CheckedAt(x: Execution, k: nat, list: seq<TransferId>, i: nat) {
    && i < |x.actions| && x.actions[i] == Recover(k, Proceeds)
    && k < |x.states[i].sweeps| && x.states[i].sweeps[k] == Sweep(list, CreditCheck)
  }

  /** The stages that a recovery reaches only after finding no credit. */
  predicate PastCheck(stage: Stage) {
    stage != CreditCheck && stage != CompletedSave
  }

  lemma StepPastCheck(y: System, a: Action, k: nat)
    requires k < |Step(y, a).sweeps| && PastCheck(Step(y, a).sweeps[k].stage)
    ensures k < |y.sweeps|
    ensures
      || y.sweeps[k] == Step(y, a).sweeps[k]
      || (a.Recover? && a.sweep == k && y.sweeps[k].list == Step(y, a).sweeps[k].list
          && (PastCheck(y.sweeps[k].stage)
              || (a.await == Proceeds && y.sweeps[k].stage == CreditCheck && Step(y, a).store == y.store
                  && y.sweeps[k].list != [] && y.sweeps[k].list[0] < |y.store.transfers|
                  && !HasRecord(y.store.txns, y.sweeps[k].list[0], TRANSFER_IN))))
  {
    hide Poll, HasRecord, FindKey, Post, Stale;
  }

  /** A recovery past its credit check has made it, and found no credit. */
  lemma {:induction false} RecoveryChecked(x: Execution, k: nat, j: nat) returns (i: nat)
    requires x.First().sweeps == [] && j <= |x.actions|
    requires k < |x.states[j].sweeps| && PastCheck(x.states[j].sweeps[k].stage)
    ensures i < j && CheckedAt(x, k, x.states[j].sweeps[k].list, i) && x.states[i + 1].store == x.states[i].store
    ensures
      var list := x.states[j].sweeps[k].list;
      && list != [] && list[0] < |x.states[i].store.transfers|
      && !HasRecord(x.states[i].store.txns, list[0], TRANSFER_IN)
  {
    hide Step, HasRecord, PastCheck;
    assert x.states[j] == Step(x.states[j - 1], x.actions[j - 1]);
    StepPastCheck(x.states[j - 1], x.actions[j - 1], k);
    if PastCheck(x.states[j - 1].sweeps[k].stage) {
      i := RecoveryChecked(x, k, j - 1);
    } else {
      i := j - 1;
    }
  }

  // ----------------------------------------------- why FAILED is saved

  /** The await of sweep `k` at `i`, at this stage of the recovery of the first transfer on `list`. */
  predicate AwaitedAt(x: Execution, k: nat, list: seq<TransferId>, stage: Stage, i: nat) {
    && i < |x.actions| && x.actions[i].Recover? && x.actions[i].sweep == k
    && k < |x.states[i].sweeps| && x.states[i].sweeps[k] == Sweep(list, stage)
  }

  lemma StepFailedSave(y: System, a: Action, k: nat)
    requires k < |Step(y, a).sweeps| && Step(y, a).sweeps[k].stage.FailedSave?
    ensures k < |y.sweeps|
    ensures
      || y.sweeps[k] == Step(y, a).sweeps[k]
      || (a.Recover? && a.sweep == k && y.sweeps[k].list == Step(y, a).sweeps[k].list && y.sweeps[k].list != []
          && y.sweeps[k].list[0] < |y.store.transfers|
          && var t := y.sweeps[k].list[0];
             match Step(y, a).sweeps[k].stage.reason
             case DestinationNotFoundDuringRecovery =>
               y.sweeps[k].stage == ReceiverCheck && a.await == Proceeds && |y.store.wallets| <= y.store.transfers[t].to
             case NoDebitFoundDuringRecovery =>
               y.sweeps[k].stage == DebitCheck && a.await == Proceeds && !HasRecord(y.store.txns, t, TRANSFER_OUT)
             case RecoveryFailed =>
               y.sweeps[k].stage == CreditSession
               && (a.await == Fails || |y.store.wallets| <= y.store.transfers[t].to)
             case _ => false)
  {
    hide Apply, Poll, HasRecord, Stale;
  }

  /** A recovery about to save FAILED has come to it by one of its own awaits, which found what the reason says: no
      wallet of the receiver, no debit, or a session that failed. */
  lemma {:induction false} RecoveryFailedFor(x: Execution, k: nat, j: nat) returns (i: nat)
    requires x.First().sweeps == [] && j <= |x.actions|
    requires k < |x.states[j].sweeps| && x.states[j].sweeps[k].stage.FailedSave?
    ensures x.states[j].sweeps[k].list != [] && i < j
    ensures
      var list := x.states[j].sweeps[k].list;
      var t := list[0];
      && t < |x.states[i].store.transfers|
      && (match x.states[j].sweeps[k].stage.reason
          case DestinationNotFoundDuringRecovery =>
            AwaitedAt(x, k, list, ReceiverCheck, i) && x.actions[i].await == Proceeds
            && |x.states[i].store.wallets| <= x.states[i].store.transfers[t].to
          case NoDebitFoundDuringRecovery =>
            AwaitedAt(x, k, list, DebitCheck, i) && x.actions[i].await == Proceeds
            && !HasRecord(x.states[i].store.txns, t, TRANSFER_OUT)
          case RecoveryFailed =>
            AwaitedAt(x, k, list, CreditSession, i)
            && (x.actions[i].await == Fails || |x.states[i].store.wallets| <= x.states[i].store.transfers[t].to)
          case _ => false)
  {
    hide Step, HasRecord;
    assert x.states[j] == Step(x.states[j - 1], x.actions[j - 1]);
    StepFailedSave(x.states[j - 1], x.actions[j - 1], k);
    if x.states[j - 1].sweeps[k] == x.states[j].sweeps[k] {
      i := RecoveryFailedFor(x, k, j - 1);
    } else {
      i := j - 1;
    }
  }

  /** An await that fails outside the session changes no document and ends the recovery: the transfer is left for the
      next sweep, this one goes on to its next transfer.  A session that fails leaves the store too and leads
      to saving FAILED. */
  lemma FailedAwaitDoes(y: System, k: nat)
    requires k < |y.sweeps| && y.sweeps[k].list != [] && y.sweeps[k].list[0] < |y.store.transfers|
    ensures
      var list := y.sweeps[k].list;
      Step(y, Recover(k, Fails))
        == y.(sweeps := y.sweeps[k := if y.sweeps[k].stage == CreditSession then Sweep(list, FailedSave(RecoveryFailed))
                                      else Sweep(list[1..], CreditCheck)])
  {
    hide HasRecord, FindKey, Post;
  }

  lemma StepFails(y: System, a: Action, d: nat)
    requires d < |Step(y, a).deliveries| && Step(y, a).deliveries[d].Failing?
    ensures d < |y.deliveries|
    ensures
      || y.deliveries[d] == Step(y, a).deliveries[d]
      || (a == LocateReceiver(d) && y.deliveries[d].Locating? && |y.store.wallets| <= y.deliveries[d].receiver
          && Step(y, a).deliveries[d].reason == DestinationNotFound)
      || (a.Settle? && a.delivery == d && y.deliveries[d].Settling? && EffectOf(y, a) == NoEffect
          && Step(y, a).deliveries[d].reason == SettlementFailed)
  {
    hide Apply, Poll;
  }

  /** A handler about to save FAILED either found no wallet of the receiver or ran a session that left nothing, and its
      reason says which. */
  lemma {:induction false} HandlerFailedFor(x: Execution, d: nat, j: nat) returns (i: nat)
    requires x.First().deliveries == [] && j <= |x.actions|
    requires d < |x.states[j].deliveries| && x.states[j].deliveries[d].Failing?
    ensures i < j
    ensures
      match x.states[j].deliveries[d].reason
      case DestinationNotFound =>
        ReceiverReadAt(x, d, i) && |x.states[i].store.wallets| <= x.states[i].deliveries[d].receiver
      case SettlementFailed =>
        x.actions[i].Settle? && x.actions[i].delivery == d && x.Effects()[i] == NoEffect
        && d < |x.states[i].deliveries| && x.states[i].deliveries[d].Settling?
      case _ => false
  {
    hide Step, EffectOf;
    assert x.states[j] == Step(x.states[j - 1], x.actions[j - 1]);
    StepFails(x.states[j - 1], x.actions[j - 1], d);
    if x.states[j - 1].deliveries[d] == x.states[j].deliveries[d] {
      i := HandlerFailedFor(x, d, j - 1);
    } else {
      i := j - 1;
    }
  }

  // -------------------------------------------------- transfer requests

  /** Request `c` reads its sender's wallet at `i`. */
  predicate SenderFetchedAt(x: Execution, c: nat, i: nat) {
    && i < |x.actions| && x.actions[i] == FetchSender(c)
    && c < |x.states[i].calls| && x.states[i].calls[c].Fetching? && x.states[i].calls[c].sender == Unread
  }

  predicate ReceiverFetchedAt(x: Execution, c: nat, i: nat) {
    && i < |x.actions| && x.actions[i] == FetchReceiver(c)
    && c < |x.states[i].calls| && x.states[i].calls[c].Fetching? && x.states[i].calls[c].receiver == Unread
  }

  /** The request works with this snapshot of its sender's wallet. */
  predicate KnowsSender(c: Call, w: Snapshot) {
    (c.Fetching? && c.sender == Got(w)) || (c.Transferring? && c.from == w)
  }

  predicate KnowsReceiver(c: Call, w: Snapshot) {
    (c.Fetching? && c.receiver == Got(w)) || (c.Transferring? && c.to == w)
  }

  lemma StepKnowsSender(y: System, a: Action, c: nat, w: Snapshot)
    requires c < |Step(y, a).calls| && KnowsSender(Step(y, a).calls[c], w)
    ensures c < |y.calls|
    ensures
      || KnowsSender(y.calls[c], w)
      || (a == FetchSender(c) && y.calls[c].Fetching? && y.calls[c].sender == Unread
          && w.id < |y.store.wallets| && w == Read(y.store, w.id) && Step(y, a).store == y.store)
  {
    hide Apply, Poll, FindKey;
  }

  lemma StepKnowsReceiver(y: System, a: Action, c: nat, w: Snapshot)
    requires c < |Step(y, a).calls| && KnowsReceiver(Step(y, a).calls[c], w)
    ensures c < |y.calls|
    ensures
      || KnowsReceiver(y.calls[c], w)
      || (a == FetchReceiver(c) && y.calls[c].Fetching? && y.calls[c].receiver == Unread
          && w.id < |y.store.wallets| && w == Read(y.store, w.id) && Step(y, a).store == y.store)
  {
    hide Apply, Poll, FindKey;
  }

  lemma {:induction false} SenderWasFetched(x: Execution, c: nat, j: nat, w: Snapshot) returns (i: nat)
    requires x.First().calls == [] && j <= |x.actions|
    requires c < |x.states[j].calls| && KnowsSender(x.states[j].calls[c], w)
    ensures i < j && SenderFetchedAt(x, c, i) && x.states[i + 1].store == x.states[i].store
    ensures w.id < |x.states[i].store.wallets| && w == Read(x.states[i].store, w.id)
  {
    hide Step, KnowsSender;
    assert x.states[j] == Step(x.states[j - 1], x.actions[j - 1]);
    StepKnowsSender(x.states[j - 1], x.actions[j - 1], c, w);
    if KnowsSender(x.states[j - 1].calls[c], w) {
      i := SenderWasFetched(x, c, j - 1, w);
    } else {
      i := j - 1;
    }
  }

  lemma {:induction false} ReceiverWasFetched(x: Execution, c: nat, j: nat, w: Snapshot) returns (i: nat)
    requires x.First().calls == [] && j <= |x.actions|
    requires c < |x.states[j].calls| && KnowsReceiver(x.states[j].calls[c], w)
    ensures i < j && ReceiverFetchedAt(x, c, i) && x.states[i + 1].store == x.states[i].store
    ensures w.id < |x.states[i].store.wallets| && w == Read(x.states[i].store, w.id)
  {
    hide Step, KnowsReceiver;
    assert x.states[j] == Step(x.states[j - 1], x.actions[j - 1]);
    StepKnowsReceiver(x.states[j - 1], x.actions[j - 1], c, w);
    if KnowsReceiver(x.states[j - 1].calls[c], w) {
      i := ReceiverWasFetched(x, c, j - 1, w);
    } else {
      i := j - 1;
    }
  }

  /** A request is about two different wallets, has read the ones it names, and reaches its session
      only with a sender's balance that covered the amount. */
  predicate Sane(c: Call) {
    && (c.Fetching? ==>
          && c.source != c.target
          && (c.sender.Got? ==> c.sender.wallet.id == c.source)
          && (c.receiver.Got? ==> c.receiver.wallet.id == c.target))
    && (c.Transferring? ==> c.from.id != c.to.id && c.amount <= c.from.balance)
  }

  lemma StepKeepsSane(y: System, a: Action)
    requires forall c :: 0 <= c < |y.calls| ==> Sane(y.calls[c])
    ensures forall c :: 0 <= c < |Step(y, a).calls| ==> Sane(Step(y, a).calls[c])
  {
    hide Apply, Poll, FindKey;
  }

  lemma {:induction false} CallsAreSane(x: Execution, j: nat)
    requires x.First().calls == [] && j <= |x.actions|
    ensures forall c :: 0 <= c < |x.states[j].calls| ==> Sane(x.states[j].calls[c])
  {
    hide Step, Sane;
    if j > 0 {
      assert x.states[j] == Step(x.states[j - 1], x.actions[j - 1]);
      CallsAreSane(x, j - 1);
      StepKeepsSane(x.states[j - 1], x.actions[j - 1]);
    }
  }
}
