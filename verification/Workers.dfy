/** The message consumer, the recovery sweep and the outbox relay as objects over the shared
    database and broker. */
module Workers {
  import opened Types
  import opened Stores
  import opened Platform
  import opened Databases
  import opened AtomicDelivery
  import opened Lifecycles
  import opened RelayTurns
  import opened Sweeps

  /** The broker: a log of accepted messages and the un-acknowledged ones of the transfer queue. */
  class Broker {
    var published: seq<Message>
    var queue: set<MessageId>

    constructor ()
      ensures published == [] && queue == {}
    {
      published, queue := [], {};
    }

    method Publish(e: EventId, p: Payload)
      modifies this
      ensures published == old(published) + [Message(e, p)]
      ensures queue == if p.TransferInitiated? then old(queue) + {|old(published)|} else old(queue)
    {
      if p.TransferInitiated? {
        queue := queue + {|published|};
      }
      published := published + [Message(e, p)];
    }

    method Acknowledge(m: MessageId)
      modifies this`queue
      ensures queue == old(queue) - {m}
    {
      queue := queue - {m};
    }
  }

  /** The platform around the given database and broker, with nothing in flight. */
  ghost function Around(db: Database, broker: Broker, now: Time): System
    reads db, broker
  {
    System(db.View(), now, [], Idle, broker.published, broker.queue, [], [])
  }

  class TransferEventsConsumer {
    const db: Database
    const broker: Broker
    const transactions: TransactionsService
    const ledger: LedgerService

    ghost predicate Wired() {
      transactions.db == db && ledger.db == db
    }

    constructor (db: Database, broker: Broker)
      ensures this.db == db && this.broker == broker && Wired()
    {
      this.db := db;
      this.broker := broker;
      transactions := new TransactionsService(db);
      ledger := new LedgerService(db);
    }

    /** The first read of `completeTransfer`. */
    method ReadTransfer(m: MessageId, p: Payload) returns (x: Delivery)
      requires p.TransferInitiated?
      ensures x == Receive(db.View(), m, p)
      ensures x == if p.transfer < |db.transfers| && db.transfers[p.transfer].status == PENDING
                   then Locating(m, p.transfer, p.amount, p.to) else Acking(m)
    {
      if |db.transfers| <= p.transfer {
        return Acking(m);
      }
      if db.transfers[p.transfer].status == COMPLETED {
        return Acking(m);
      }
      if db.transfers[p.transfer].status == FAILED {
        return Acking(m);
      }
      return Locating(m, p.transfer, p.amount, p.to);
    }

    /** The second one. */
    method LocateReceiver(x: Delivery) returns (x': Delivery)
      requires x.Locating?
      ensures x' == Locate(db.View(), x)
      ensures
        var w := x.receiver;
        x' == if w < |db.wallets|
              then Settling(x.msg, x.transfer, x.amount, Snapshot(w, db.wallets[w].balance, db.wallets[w].version))
              else Failing(x.msg, x.transfer, DestinationNotFound)
    {
      var wallet := db.FindWallet(x.receiver);
      if wallet.None? {
        return Failing(x.msg, x.transfer, DestinationNotFound);
      }
      return Settling(x.msg, x.transfer, x.amount, wallet.value);
    }

    /** The session of `completeTransfer`. */
    method SettleSession(x: Delivery, end: SessionEnd) returns (x': Delivery)
      requires Wired() && x.Settling?
      modifies db
      ensures
        var e := SettleEffect(old(db.View()), x.transfer, x.to, x.amount, end);
        db.View() == Apply(old(db.View()), e) && x' == AfterSession(x, e)
      ensures
        var w, s := x.to.id, old(db.View());
        if end == Commits && x.transfer < |s.transfers| && w < |s.wallets| && s.wallets[w].version == x.to.version
        then Credited(s, db.View(), x.transfer, w, x.amount, true) && x' == Acking(x.msg)
        else db.View() == s && x' == Failing(x.msg, x.transfer, SettlementFailed)
    {
      var w := x.to.id;
      if !(w < |db.wallets| && db.wallets[w].version == x.to.version) {
        return Failing(x.msg, x.transfer, SettlementFailed);
      }
      var saved := db.View();
      var wallet := db.IncrementWallet(w, x.amount, true);
      if end != Commits || |db.transfers| <= x.transfer {
        db.Restore(saved);
        return Failing(x.msg, x.transfer, SettlementFailed);
      }
      var txn := transactions.Create(w, TRANSFER_IN, x.amount, wallet.balance, Some(x.transfer),
                                     Some(db.transfers[x.transfer].from));
      ledger.RecordCredit(w, txn, x.amount, wallet.balance);
      db.SaveCompleted(x.transfer);
      return Acking(x.msg);
    }

    /** The whole of `completeTransfer` without interruption; it returns normally or throws. */
    method CompleteTransfer(m: MessageId, p: Payload, end: SessionEnd, saved: bool) returns (returned: bool)
      requires Wired() && p.TransferInitiated?
      modifies db
      ensures db.View() == Apply(old(db.View()), HandleEffect(old(db.View()), p, Delivered(m, end, saved, true)))
      ensures returned == HandlesWell(old(db.View()), p, Delivered(m, end, saved, true))
      ensures
        var s := old(db.View());
        var pending := p.transfer < |s.transfers| && s.transfers[p.transfer].status == PENDING;
        && (!pending ==> returned && db.View() == s)
        && (pending && p.to < |s.wallets| && end == Commits ==>
              returned && Credited(s, db.View(), p.transfer, p.to, p.amount, true))
        && (pending && !(p.to < |s.wallets| && end == Commits) ==>
              !returned
              && var reason := if p.to < |s.wallets| then SettlementFailed else DestinationNotFound;
                 if saved then Failed(s, db.View(), p.transfer, reason) else db.View() == s)
    {
      var x := ReadTransfer(m, p);
      if x.Locating? {
        x := LocateReceiver(x);
      }
      if x.Settling? {
        x := SettleSession(x, end);
      }
      if x.Failing? && saved {
        db.SaveFailed(x.transfer, x.reason);
      }
      returned := x.Acking?;
    }

    /** Acknowledge when `completeTransfer` returns, requeue when it throws.  Seen from outside, an
        uninterrupted call is the atomic delivery of the state machine. */
    method HandleMessage(m: MessageId, end: SessionEnd, saved: bool, ghost now: Time)
      requires Wired() && m in broker.queue && m < |broker.published| && broker.published[m].payload.TransferInitiated?
      modifies db, broker
      ensures Around(db, broker, now)
           == Handle(old(Around(db, broker, now)), Delivered(m, end, saved, true)).(deliveries := [])
      ensures
        var p, s := old(broker.published)[m].payload, old(db.View());
        var pending := p.transfer < |s.transfers| && s.transfers[p.transfer].status == PENDING;
        && broker.published == old(broker.published)
        && broker.queue == if !pending || (p.to < |s.wallets| && end == Commits)
                           then old(broker.queue) - {m} else old(broker.queue)
    {
      ghost var before := Around(db, broker, now);
      HandleDoes(before, Delivered(m, end, saved, true));
      hide Handle, Run, Apply, HandleEffect;
      var p := broker.published[m].payload;
      var acked := CompleteTransfer(m, p, end, saved);
      if acked {
        broker.Acknowledge(m);
      }
    }
  }

  class PendingTransferWorker {
    const db: Database
    const transactions: TransactionsService
    const ledger: LedgerService

    ghost predicate Wired() {
      transactions.db == db && ledger.db == db
    }

    constructor (db: Database)
      ensures this.db == db && Wired()
    {
      this.db := db;
      transactions := new TransactionsService(db);
      ledger := new LedgerService(db);
    }

    method CheckCredit(t: TransferId) returns (next: Stage)
      requires t < |db.transfers|
      ensures NextStage(db.View(), t, CreditCheck, Proceeds) == Some(next)
      ensures next == if HasRecord(db.txns, t, TRANSFER_IN) then CompletedSave else ReceiverCheck
    {
      var credited := db.FindRecord(t, TRANSFER_IN);
      return if credited then CompletedSave else ReceiverCheck;
    }

    method CheckReceiver(t: TransferId) returns (next: Stage)
      requires t < |db.transfers|
      ensures NextStage(db.View(), t, ReceiverCheck, Proceeds) == Some(next)
      ensures next == if db.transfers[t].to < |db.wallets| then DebitCheck
                      else FailedSave(DestinationNotFoundDuringRecovery)
    {
      var wallet := db.FindWallet(db.transfers[t].to);
      return if wallet.None? then FailedSave(DestinationNotFoundDuringRecovery) else DebitCheck;
    }

    method CheckDebit(t: TransferId) returns (next: Stage)
      requires t < |db.transfers|
      ensures NextStage(db.View(), t, DebitCheck, Proceeds) == Some(next)
      ensures next == if HasRecord(db.txns, t, TRANSFER_OUT) then CreditSession
                      else FailedSave(NoDebitFoundDuringRecovery)
    {
      var debited := db.FindRecord(t, TRANSFER_OUT);
      return if debited then CreditSession else FailedSave(NoDebitFoundDuringRecovery);
    }

    /** The session of `recoverTransfer`; it updates the receiver by its identity alone. */
    method Credit(t: TransferId, await: Await) returns (next: Option<Stage>)
      requires Wired() && t < |db.transfers|
      modifies db
      ensures db.View() == Apply(old(db.View()), StageEffect(old(db.View()), t, CreditSession, await))
      ensures next == NextStage(old(db.View()), t, CreditSession, await)
      ensures
        var s := old(db.View());
        var x := s.transfers[t];
        if await == Proceeds && x.to < |s.wallets|
        then Credited(s, db.View(), t, x.to, x.amount, false) && next == None
        else db.View() == s && next == Some(FailedSave(RecoveryFailed))
    {
      var saved := db.View();
      var x := db.transfers[t];
      if |db.wallets| <= x.to {
        return Some(FailedSave(RecoveryFailed));
      }
      var updated := db.IncrementWallet(x.to, x.amount, false);
      var txn := transactions.Create(x.to, TRANSFER_IN, x.amount, updated.balance, Some(t), Some(x.from));
      ledger.RecordCredit(x.to, txn, x.amount, updated.balance);
      db.SaveCompleted(t);
      if await == Fails {
        db.Restore(saved);
        return Some(FailedSave(RecoveryFailed));
      }
      return None;
    }

    /** The whole of `recoverTransfer` without interruption. */
    method RecoverTransfer(t: TransferId, end: RecoveryEnd)
      requires Wired()
      modifies db
      ensures db.View() == Apply(old(db.View()), RecoverEffect(old(db.View()), t, end))
      ensures end == Throws || |old(db.transfers)| <= t ==> db.View() == old(db.View())
      ensures end != Throws && t < |old(db.transfers)| ==>
        var s := old(db.View());
        var x := s.transfers[t];
        if HasRecord(s.txns, t, TRANSFER_IN)
        then db.View() == s.(transfers := s.transfers[t := x.(status := COMPLETED)])
        else if |s.wallets| <= x.to then Failed(s, db.View(), t, DestinationNotFoundDuringRecovery)
        else if !HasRecord(s.txns, t, TRANSFER_OUT) then Failed(s, db.View(), t, NoDebitFoundDuringRecovery)
        else if end == SessionAborts then Failed(s, db.View(), t, RecoveryFailed)
        else Credited(s, db.View(), t, x.to, x.amount, false)
    {
      if end == Throws || |db.transfers| <= t {
        return;
      }
      var next := CheckCredit(t);
      if next == CompletedSave {
        db.SaveCompleted(t);
        return;
      }
      next := CheckReceiver(t);
      if next.FailedSave? {
        db.SaveFailed(t, next.reason);
        return;
      }
      next := CheckDebit(t);
      if next.FailedSave? {
        db.SaveFailed(t, next.reason);
        return;
      }
      var failed := Credit(t, if end == SessionAborts then Fails else Proceeds);
      if failed.Some? {
        db.SaveFailed(t, RecoveryFailed);
      }
    }

    method FindStale(cutoff: int) returns (stale: seq<TransferId>)
      ensures stale == Stale(db.transfers, cutoff)
    {
      stale := [];
      for i := 0 to |db.transfers|
        invariant stale == Stale(db.transfers[..i], cutoff)
      {
        assert db.transfers[..i + 1][..i] == db.transfers[..i];
        if db.transfers[i].status == PENDING && db.transfers[i].createdAt < cutoff {
          stale := stale + [i];
        }
      }
      assert db.transfers[..|db.transfers|] == db.transfers;
    }

    /** One uninterrupted sweep; an error in one recovery does not stop the loop. */
    method Sweep(now: Time, timeout: nat, ends: nat -> RecoveryEnd)
      requires Wired()
      modifies db
      ensures db.View() == Swept(old(db.View()), Stale(old(db.transfers), now - timeout), ends)
    {
      hide Stale, Apply, RecoverEffect, Swept;
      NothingSwept(db.View(), ends);
      var stale := FindStale(now - timeout);
      for i := 0 to |stale|
        invariant db.View() == Swept(old(db.View()), stale[..i], ends)
      {
        SweptNext(old(db.View()), stale, i, ends);
        RecoverTransfer(stale[i], ends(i));
      }
      assert stale[..|stale|] == stale;
    }
  }

  /** The actions of one relay turn from position `i` of its batch on: publish and mark, until the
      batch ends or an await fails. */
  function Turns(i: nat, n: nat, publishes: nat -> Remote, marks: nat -> Remote): seq<Action>
    decreases n - i
  {
    if n <= i then []
    else if publishes(i) != Succeeds then [Publish(publishes(i))]
    else if marks(i) != Succeeds then [Publish(Succeeds), MarkSent(marks(i))]
    else [Publish(Succeeds), MarkSent(Succeeds)] + Turns(i + 1, n, publishes, marks)
  }

  /** One whole relay turn as a run of the state machine. */
  function RelayScript(s: Store, publishes: nat -> Remote, marks: nat -> Remote): seq<Action> {
    [PollOutbox] + Turns(0, |Take(Staged(s.outbox), BATCH_SIZE)|, publishes, marks)
  }

  lemma PublishOnce(y: System, batch: seq<EventId>, i: nat, remote: Remote)
    requires i < |batch| && batch[i] < |y.store.outbox|
    ensures
      Step(At(y, batch, i), Publish(remote))
        == match remote
           case Succeeds => Accept(y, batch[i]).(relay := Busy(batch, i, true))
           case FailsBefore => y.(relay := Idle)
           case FailsAfter => Accept(y, batch[i]).(relay := Idle)
  {
  }

  lemma MarkOnce(y: System, batch: seq<EventId>, i: nat, remote: Remote)
    requires i < |batch| && batch[i] < |y.store.outbox|
    ensures
      var y' := if remote == FailsBefore then y else y.(store := Apply(y.store, MarkedPublished(batch[i])));
      Step(y.(relay := Busy(batch, i, true)), MarkSent(remote))
        == if remote == Succeeds then At(y', batch, i + 1) else y'.(relay := Idle)
  {
  }

  lemma Polled(y: System)
    requires y.relay.Idle?
    ensures Run(y, [PollOutbox]) == At(y, Take(Staged(y.store.outbox), BATCH_SIZE), 0)
  {
    hide Staged, Take;
    RunEmpty(y);
    RunSnoc(y, [], PollOutbox);
    assert [] + [PollOutbox] == [PollOutbox];
  }

  lemma AroundIsIdle(db: Database, broker: Broker, now: Time)
    ensures Around(db, broker, now).relay == Idle && Around(db, broker, now).store == db.View()
  {
  }

  lemma PastTheEnd(y: System, batch: seq<EventId>, i: nat)
    requires |batch| <= i && y.relay == Idle
    ensures At(y, batch, i) == y
  {
  }

  /** The actions of one turn of the loop. */
  function TurnActions(publish: Remote, mark: Remote): seq<Action> {
    if publish != Succeeds then [Publish(publish)] else [Publish(Succeeds), MarkSent(mark)]
  }

  lemma TurnsUnfold(done: seq<Action>, i: nat, n: nat, publishes: nat -> Remote, marks: nat -> Remote)
    requires i < n
    ensures done + Turns(i, n, publishes, marks)
         == if publishes(i) == Succeeds && marks(i) == Succeeds
            then done + TurnActions(publishes(i), marks(i)) + Turns(i + 1, n, publishes, marks)
            else done + TurnActions(publishes(i), marks(i))
  {
  }

  lemma NoTurnsLeft(done: seq<Action>, n: nat, publishes: nat -> Remote, marks: nat -> Remote)
    ensures done + Turns(n, n, publishes, marks) == done
  {
  }

  /** What the loop body does is what these actions do. */
  lemma TurnOnce(start: System, done: seq<Action>, y: System, batch: seq<EventId>, i: nat,
                 publish: Remote, mark: Remote, after: System, z: System)
    requires i < |batch| && batch[i] < |y.store.outbox| && y.relay == Idle
    requires Run(start, done) == At(y, batch, i)
    requires
      var accepted := Accept(y, batch[i]);
      after == if publish == FailsBefore then y
               else if publish == FailsAfter || mark == FailsBefore then accepted
               else accepted.(store := Apply(accepted.store, MarkedPublished(batch[i])))
    requires z == if publish == Succeeds && mark == Succeeds then At(after, batch, i + 1) else after
    ensures Run(start, done + TurnActions(publish, mark)) == z
  {
    hide Run, Step, Apply, At;
    var accepted := Accept(y, batch[i]);
    PublishOnce(y, batch, i, publish);
    if publish != Succeeds {
      RunSnoc(start, done, Publish(publish));
    } else {
      MarkOnce(accepted, batch, i, mark);
      RunSnoc(start, done, Publish(Succeeds));
      RunSnoc(start, done + [Publish(Succeeds)], MarkSent(mark));
      assert done + [Publish(Succeeds)] + [MarkSent(mark)] == done + [Publish(Succeeds), MarkSent(mark)];
    }
  }

  lemma {:induction false} OneMoreFirst(n: nat)
    ensures [Publish(Succeeds), MarkSent(Succeeds)] + Pairs(n) == Pairs(n + 1)
  {
    var pair := [Publish(Succeeds), MarkSent(Succeeds)];
    if n == 0 {
      assert Pairs(1) == Pairs(0) + pair;
    } else {
      OneMoreFirst(n - 1);
      assert pair + (Pairs(n - 1) + pair) == (pair + Pairs(n - 1)) + pair;
    }
  }

  /** When nothing fails the turn is publishing and marking throughout. */
  lemma {:induction false} TurnsThroughout(i: nat, n: nat, publishes: nat -> Remote, marks: nat -> Remote)
    requires i <= n && forall k :: publishes(k) == Succeeds && marks(k) == Succeeds
    ensures Turns(i, n, publishes, marks) == Pairs(n - i)
    decreases n - i
  {
    if i < n {
      TurnsThroughout(i + 1, n, publishes, marks);
      OneMoreFirst(n - i - 1);
    }
  }

  /** And it sends what is due. */
  lemma ScriptSends(y: System, publishes: nat -> Remote, marks: nat -> Remote)
    requires y.relay.Idle? && forall k :: publishes(k) == Succeeds && marks(k) == Succeeds
    ensures Sent(y, Run(y, RelayScript(y.store, publishes, marks)), Due(y.store.outbox))
  {
    hide Run, Step, Staged, Sent, Pairs, Turns;
    var batch := Due(y.store.outbox);
    assert Take(Staged(y.store.outbox), BATCH_SIZE) == batch;
    TurnsThroughout(0, |batch|, publishes, marks);
    Polled(y);
    RunConcat(y, [PollOutbox], Pairs(|batch|));
    PollsDue(y.store.outbox);
    RoundsSend(y, batch, |batch|);
    assert batch[..|batch|] == batch;
  }

  class OutboxRelayWorker {
    const db: Database
    const outbox: OutboxService
    const broker: Broker
    var running: bool

    ghost predicate Wired() {
      outbox.db == db
    }

    constructor (db: Database, broker: Broker)
      ensures this.db == db && this.broker == broker && Wired() && !running
    {
      this.db := db;
      this.broker := broker;
      outbox := new OutboxService(db);
      running := false;
    }

    /** One event of a batch: publish, then mark.  False when an await failed. */
    method RelayOne(e: EventId, publish: Remote, mark: Remote, ghost now: Time) returns (ok: bool)
      requires Wired() && e < |db.outbox|
      modifies db, broker
      ensures ok == (publish == Succeeds && mark == Succeeds)
      ensures |db.outbox| == |old(db.outbox)|
      ensures
        var y := old(Around(db, broker, now));
        var z := Accept(y, e);
        Around(db, broker, now)
          == if publish == FailsBefore then y
             else if publish == FailsAfter || mark == FailsBefore then z
             else z.(store := Apply(z.store, MarkedPublished(e)))
      ensures broker.published
           == old(broker.published)
              + if publish == FailsBefore then [] else [Message(e, old(db.outbox)[e].payload)]
      ensures db.outbox == if publish == Succeeds && mark != FailsBefore
                           then old(db.outbox)[e := OutboxEvent(old(db.outbox)[e].payload, PUBLISHED)]
                           else old(db.outbox)
    {
      if publish == FailsBefore {
        return false;
      }
      broker.Publish(e, db.outbox[e].payload);
      if publish == FailsAfter || mark == FailsBefore {
        return false;
      }
      outbox.MarkPublished(e);
      return mark == Succeeds;
    }

    /** The loop over a batch. */
    method RelayBatch(batch: seq<EventId>, publishes: nat -> Remote, marks: nat -> Remote, ghost now: Time)
      requires Wired() && forall j :: 0 <= j < |batch| ==> batch[j] < |db.outbox|
      modifies db, broker
      ensures
        Around(db, broker, now)
          == Run(At(old(Around(db, broker, now)), batch, 0), Turns(0, |batch|, publishes, marks))
    {
      hide Run, Step, Apply, Around, Accept, At, Turns, TurnActions;
      ghost var first := At(Around(db, broker, now), batch, 0);
      ghost var done := [];
      RunEmpty(first);
      var i := 0;
      while i < |batch|
        invariant 0 <= i <= |batch|
        invariant |db.outbox| == |old(db.outbox)|
        invariant done + Turns(i, |batch|, publishes, marks) == Turns(0, |batch|, publishes, marks)
        invariant Run(first, done) == At(Around(db, broker, now), batch, i)
      {
        ghost var y := Around(db, broker, now);
        AroundIsIdle(db, broker, now);
        var ok := RelayOne(batch[i], publishes(i), marks(i), now);
        AroundIsIdle(db, broker, now);
        ghost var z := if ok then At(Around(db, broker, now), batch, i + 1) else Around(db, broker, now);
        TurnOnce(first, done, y, batch, i, publishes(i), marks(i), Around(db, broker, now), z);
        TurnsUnfold(done, i, |batch|, publishes, marks);
        done := done + TurnActions(publishes(i), marks(i));
        if !ok {
          return;
        }
        i := i + 1;
      }
      AroundIsIdle(db, broker, now);
      PastTheEnd(Around(db, broker, now), batch, i);
      NoTurnsLeft(done, |batch|, publishes, marks);
    }

    /** Publish then mark, event by event, stopping at the first error; a relay that is already
        running does nothing.  Seen from outside it is the relay script of the state machine. */
    method Relay(publishes: nat -> Remote, marks: nat -> Remote, ghost now: Time)
      requires Wired()
      modifies this, db, broker
      ensures running == old(running)
      ensures old(running) ==> Around(db, broker, now) == old(Around(db, broker, now))
      ensures !old(running) ==>
        Around(db, broker, now)
          == Run(old(Around(db, broker, now)), RelayScript(old(db.View()), publishes, marks))
      ensures !old(running) && (forall k :: publishes(k) == Succeeds && marks(k) == Succeeds) ==>
        Sent(old(Around(db, broker, now)), Around(db, broker, now), Due(old(db.outbox)))
    {
      hide Run, Step, Around, At, Turns, Staged, Sent;
      if running {
        return;
      }
      running := true;
      ghost var start := Around(db, broker, now);
      AroundIsIdle(db, broker, now);
      var pending := outbox.FindPending(BATCH_SIZE);
      RelayBatch(pending, publishes, marks, now);
      Polled(start);
      RunConcat(start, [PollOutbox], Turns(0, |pending|, publishes, marks));
      running := false;
      if forall k :: publishes(k) == Succeeds && marks(k) == Succeeds {
        ScriptSends(start, publishes, marks);
      }
    }
  }
}
