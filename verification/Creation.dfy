/** What comes into being with a wallet or a transfer, and what becomes of a transfer's status. */
module Creation {
  import opened Types
  import opened Stores
  import opened Platform
  import opened Evolution
  import opened Deliveries

  // ------------------------------------------------------ new transfers

  /** A committed transfer request adds one document: PENDING, without a failure reason, with the request's wallets,
      amount and key and the current time.  The older documents are left alone. */
  lemma NewTransferIsPending(y: System, a: Action)
    requires EffectOf(y, a).Transferred?
    ensures a.EndCall? && a.call < |y.calls| && y.calls[a.call].Transferring?
    ensures
      var n := |y.store.transfers|;
      var c := y.calls[a.call];
      var transfers := Step(y, a).store.transfers;
      && |transfers| == n + 1 && transfers[..n] == y.store.transfers
      && transfers[n].status == PENDING && transfers[n].failureReason.None?
      && transfers[n].from == c.from.id && transfers[n].to == c.to.id
      && transfers[n].amount == c.amount && transfers[n].key == c.key && transfers[n].createdAt == y.now
  {
    hide FindKey, HasRecord;
    StepAppliesEffect(y, a);
  }

  /** A change that gives its transfer a final status. */
  predicate Resolves(e: Effect, t: TransferId) {
    (e.Settled? || e.Recovered? || e.MarkedCompleted? || e.MarkedFailed?) && e.transfer == t
  }

  /** A verdict is in the document, and nothing else there has changed. */
  predicate Tells(e: Effect, before: Transfer, after: Transfer) {
    && after.status == (if e.MarkedFailed? then FAILED else COMPLETED)
    && after.failureReason == (if e.MarkedFailed? then Some(e.reason) else before.failureReason)
    && after.from == before.from && after.to == before.to && after.amount == before.amount
    && after.key == before.key && after.createdAt == before.createdAt
  }

  lemma ApplyTells(s: Store, e: Effect, t: TransferId)
    requires Applicable(s, e) && t < |s.transfers|
    ensures t < |Apply(s, e).transfers|
    ensures Resolves(e, t) ==> Tells(e, s.transfers[t], Apply(s, e).transfers[t])
    ensures !Resolves(e, t) ==> Apply(s, e).transfers[t] == s.transfers[t]
  {
    hide FindKey, HasRecord;
  }

  lemma StepTells(x: Execution, k: nat, t: TransferId)
    requires k < |x.actions| && t < |x.states[k].store.transfers|
    ensures t < |x.states[k + 1].store.transfers|
    ensures Resolves(x.Effects()[k], t) ==>
              Tells(x.Effects()[k], x.states[k].store.transfers[t], x.states[k + 1].store.transfers[t])
    ensures !Resolves(x.Effects()[k], t) ==> x.states[k + 1].store.transfers[t] == x.states[k].store.transfers[t]
  {
    hide Step, EffectOf, Apply, Tells;
    assert x.states[k + 1] == Step(x.states[k], x.actions[k]);
    StepAppliesEffect(x.states[k], x.actions[k]);
    ApplyTells(x.states[k].store, x.Effects()[k], t);
  }

  /** Without a verdict the document stays as it is. */
  lemma {:induction false} UnresolvedStays(x: Execution, i: nat, j: nat, t: TransferId)
    requires i <= j <= |x.actions| && t < |x.states[i].store.transfers|
    requires forall k :: i <= k < j ==> !Resolves(x.Effects()[k], t)
    ensures t < |x.states[j].store.transfers| && x.states[j].store.transfers[t] == x.states[i].store.transfers[t]
    decreases j
  {
    hide Step, EffectOf;
    if i < j {
      UnresolvedStays(x, i, j - 1, t);
      StepTells(x, j - 1, t);
    }
  }

  /** A PENDING transfer stays PENDING, its document untouched, exactly until the consumer or a recovery credits it
      or marks it. */
  lemma PendingUntilResolved(x: Execution, i: nat, j: nat, t: TransferId)
    requires i <= j <= |x.actions|
    requires t < |x.states[i].store.transfers| && x.states[i].store.transfers[t].status == PENDING
    ensures t < |x.states[j].store.transfers|
    ensures x.states[j].store.transfers[t].status == PENDING
       <==> forall k :: i <= k < j ==> !Resolves(x.Effects()[k], t)
    ensures x.states[j].store.transfers[t].status == PENDING ==>
              x.states[j].store.transfers[t] == x.states[i].store.transfers[t]
  {
    hide Step, EffectOf, Run, History;
    if k :| i <= k < j && Resolves(x.Effects()[k], t) {
      ExecutionIsRun(x, i, k);
      RunIsLater(x.states[i], x.actions[i..k]);
      StepTells(x, k, t);
      ExecutionIsRun(x, k + 1, j);
      RunIsLater(x.states[k + 1], x.actions[k + 1..j]);
      assert TransferLater(x.states[k + 1].store.transfers[t], x.states[j].store.transfers[t]);
    } else {
      UnresolvedStays(x, i, j, t);
    }
  }

  /** A transfer's status and reason are what the last verdict on it says. */
  lemma LastVerdictStands(x: Execution, k: nat, j: nat, t: TransferId)
    requires k < j <= |x.actions| && t < |x.states[k].store.transfers| && Resolves(x.Effects()[k], t)
    requires forall m :: k < m < j ==> !Resolves(x.Effects()[m], t)
    ensures t < |x.states[j].store.transfers|
    ensures Tells(x.Effects()[k], x.states[k].store.transfers[t], x.states[j].store.transfers[t])
  {
    hide Step, EffectOf, Tells;
    StepTells(x, k, t);
    UnresolvedStays(x, k + 1, j, t);
  }

  // -------------------------------------------------------- their events

  /** Events that announce the wallet. */
  function Openings(outbox: seq<OutboxEvent>, w: WalletId): nat {
    if outbox == [] then 0 else
      var n := |outbox| - 1;
      Openings(outbox[..n], w) + if outbox[n].payload == WalletOpened(w) then 1 else 0
  }

  /** Events that announce the transfer. */
  function Initiations(outbox: seq<OutboxEvent>, t: TransferId): nat {
    if outbox == [] then 0 else
      var n := |outbox| - 1;
      var p := outbox[n].payload;
      Initiations(outbox[..n], t) + if p.TransferInitiated? && p.transfer == t then 1 else 0
  }

  /** Events are about wallets and transfers that exist. */
  predicate Known(s: Store, p: Payload) {
    match p
    case WalletOpened(w) => w < |s.wallets|
    case TransferInitiated(t, _, _, _) => t < |s.transfers|
  }

  predicate EventsKnown(s: Store) {
    forall e :: 0 <= e < |s.outbox| ==> Known(s, s.outbox[e].payload)
  }

  /** From these positions on each wallet and each transfer has exactly one event. */
  predicate OneEventEach(s: Store, wallets: nat, transfers: nat) {
    && (forall w :: wallets <= w < |s.wallets| ==> Openings(s.outbox, w) == 1)
    && (forall t :: transfers <= t < |s.transfers| ==> Initiations(s.outbox, t) == 1)
  }

  lemma CountsAppend(outbox: seq<OutboxEvent>, e: OutboxEvent, w: WalletId, t: TransferId)
    ensures Openings(outbox + [e], w) == Openings(outbox, w) + if e.payload == WalletOpened(w) then 1 else 0
    ensures Initiations(outbox + [e], t)
         == Initiations(outbox, t) + if e.payload.TransferInitiated? && e.payload.transfer == t then 1 else 0
  {
    assert (outbox + [e])[..|outbox|] == outbox;
  }

  lemma {:induction false} UnknownHasNoEvents(s: Store, outbox: seq<OutboxEvent>, w: WalletId, t: TransferId)
    requires forall e :: 0 <= e < |outbox| ==> Known(s, outbox[e].payload)
    ensures |s.wallets| <= w ==> Openings(outbox, w) == 0
    ensures |s.transfers| <= t ==> Initiations(outbox, t) == 0
  {
    if outbox != [] {
      var n := |outbox| - 1;
      UnknownHasNoEvents(s, outbox[..n], w, t);
      assert Known(s, outbox[n].payload);
    }
  }

  lemma {:induction false} MarkingKeepsCounts(outbox: seq<OutboxEvent>, e: EventId, w: WalletId, t: TransferId)
    requires e < |outbox|
    ensures
      var marked := outbox[e := outbox[e].(status := PUBLISHED)];
      Openings(marked, w) == Openings(outbox, w) && Initiations(marked, t) == Initiations(outbox, t)
  {
    var n := |outbox| - 1;
    var marked := outbox[e := outbox[e].(status := PUBLISHED)];
    if e < n {
      MarkingKeepsCounts(outbox[..n], e, w, t);
      assert marked[..n] == outbox[..n][e := outbox[..n][e].(status := PUBLISHED)];
    } else {
      assert marked[..n] == outbox[..n];
    }
  }

  /** How one change moves the counts: one new event for a new wallet or transfer, none otherwise. */
  lemma ApplyCountsEvents(s: Store, e: Effect, w: WalletId, t: TransferId)
    requires Applicable(s, e)
    ensures Openings(Apply(s, e).outbox, w)
         == Openings(s.outbox, w) + if e.WalletCreated? && w == |s.wallets| then 1 else 0
    ensures Initiations(Apply(s, e).outbox, t)
         == Initiations(s.outbox, t) + if e.Transferred? && t == |s.transfers| then 1 else 0
  {
    hide FindKey, HasRecord, Openings, Initiations;
    match e
    case WalletCreated => CountsAppend(s.outbox, OutboxEvent(WalletOpened(|s.wallets|), STAGED), w, t);
    case Transferred(from, to, amount, _, _) =>
      CountsAppend(s.outbox, OutboxEvent(TransferInitiated(|s.transfers|, from, to, amount), STAGED), w, t);
    case MarkedPublished(k) => MarkingKeepsCounts(s.outbox, k, w, t);
    case _ =>
  }

  lemma ApplySizes(s: Store, e: Effect)
    requires Applicable(s, e)
    ensures |Apply(s, e).wallets| == |s.wallets| + if e.WalletCreated? then 1 else 0
    ensures |Apply(s, e).transfers| == |s.transfers| + if e.Transferred? then 1 else 0
  {
    hide FindKey, HasRecord;
  }

  lemma ApplyKeepsKnown(s: Store, e: Effect)
    requires Applicable(s, e) && EventsKnown(s)
    ensures EventsKnown(Apply(s, e))
  {
    hide FindKey, HasRecord;
    ApplySizes(s, e);
    forall k | 0 <= k < |Apply(s, e).outbox| ensures Known(Apply(s, e), Apply(s, e).outbox[k].payload) {
      if k < |s.outbox| {
        assert Apply(s, e).outbox[k].payload == s.outbox[k].payload;
      }
    }
  }

  lemma ApplyKeepsOneEventEach(s: Store, e: Effect, wallets: nat, transfers: nat)
    requires Applicable(s, e) && EventsKnown(s) && OneEventEach(s, wallets, transfers)
    ensures OneEventEach(Apply(s, e), wallets, transfers)
  {
    hide Apply, Applicable, Openings, Initiations;
    ApplySizes(s, e);
    forall w | wallets <= w < |Apply(s, e).wallets| ensures Openings(Apply(s, e).outbox, w) == 1 {
      ApplyCountsEvents(s, e, w, 0);
      UnknownHasNoEvents(s, s.outbox, w, 0);
    }
    forall t | transfers <= t < |Apply(s, e).transfers| ensures Initiations(Apply(s, e).outbox, t) == 1 {
      ApplyCountsEvents(s, e, 0, t);
      UnknownHasNoEvents(s, s.outbox, 0, t);
    }
  }

  lemma {:induction false} RunKeepsOneEventEach(y: System, actions: seq<Action>, wallets: nat, transfers: nat)
    requires EventsKnown(y.store) && OneEventEach(y.store, wallets, transfers)
    ensures EventsKnown(Run(y, actions).store) && OneEventEach(Run(y, actions).store, wallets, transfers)
  {
    hide Step, EffectOf, Apply, EventsKnown, OneEventEach;
    if actions != [] {
      var n := |actions| - 1;
      var before := Run(y, actions[..n]);
      RunKeepsOneEventEach(y, actions[..n], wallets, transfers);
      StepAppliesEffect(before, actions[n]);
      ApplyKeepsKnown(before.store, EffectOf(before, actions[n]));
      ApplyKeepsOneEventEach(before.store, EffectOf(before, actions[n]), wallets, transfers);
    }
  }

  /** Every wallet and every transfer created since the start has exactly one event that announces it. */
  lemma CreatedIsAnnouncedOnce(x: Execution)
    requires EventsKnown(x.First().store)
    ensures OneEventEach(x.Last().store, |x.First().store.wallets|, |x.First().store.transfers|)
  {
    hide Step, Run, Openings, Initiations, EventsKnown;
    WholeExecutionIsRun(x);
    var s := x.First().store;
    RunKeepsOneEventEach(x.First(), x.actions, |s.wallets|, |s.transfers|);
  }
}
