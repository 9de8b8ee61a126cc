/** From outbox to consumer: what events, messages and running handlers say about transfers, and
    why a transfer that `transfer` created cannot be lost on the way. */
module Deliveries {
  import opened Types
  import opened Stores
  import opened Platform
  import opened Evolution

  // ------------------------------------------------- payload fidelity

  /** A payload about a transfer names a stored transfer and carries its wallets and amount. */
  predicate Names(transfers: seq<Transfer>, p: Payload) {
    p.TransferInitiated? ==>
      && p.transfer < |transfers|
      && transfers[p.transfer].from == p.from
      && transfers[p.transfer].to == p.to
      && transfers[p.transfer].amount == p.amount
  }

  predicate EventsFaithful(s: Store) {
    forall e :: 0 <= e < |s.outbox| ==> Names(s.transfers, s.outbox[e].payload)
  }

  predicate MessageFaithful(s: Store, m: Message) {
    m.event < |s.outbox| && s.outbox[m.event].payload == m.payload && Names(s.transfers, m.payload)
  }

  predicate BrokerFaithful(y: System) {
    && (forall m :: 0 <= m < |y.published| ==> MessageFaithful(y.store, y.published[m]))
    && (forall m :: m in y.queue ==> m < |y.published| && y.published[m].payload.TransferInitiated?)
  }

  function PayloadFrom(p: Payload): WalletId {
    if p.TransferInitiated? then p.from else 0
  }

  /** A handler works on the transfer, amount and receiver of the message it was given. */
  predicate HandlerFaithful(published: seq<Message>, x: Delivery) {
    match x
    case Locating(m, t, a, w) =>
      m < |published| && published[m].payload == TransferInitiated(t, PayloadFrom(published[m].payload), w, a)
    case Settling(m, t, a, w) =>
      m < |published| && published[m].payload == TransferInitiated(t, PayloadFrom(published[m].payload), w.id, a)
    case Failing(m, t, _) =>
      m < |published| && published[m].payload.TransferInitiated? && published[m].payload.transfer == t
    case Acking(m) => m < |published| && published[m].payload.TransferInitiated?
    case Finished => true
  }

  predicate HandlersFaithful(y: System) {
    forall d :: 0 <= d < |y.deliveries| ==> HandlerFaithful(y.published, y.deliveries[d])
  }

  predicate Faithful(y: System) {
    EventsFaithful(y.store) && BrokerFaithful(y) && HandlersFaithful(y)
  }

  lemma NamesLater(ts: seq<Transfer>, ts': seq<Transfer>, p: Payload)
    requires TransfersLater(ts, ts') && Names(ts, p)
    ensures Names(ts', p)
  {
    if p.TransferInitiated? {
      assert TransferLater(ts[p.transfer], ts'[p.transfer]);
    }
  }

  lemma NewEventNames(s: Store, e: Effect)
    requires Applicable(s, e)
    ensures var s' := Apply(s, e);
            && |s'.outbox| <= |s.outbox| + 1
            && (|s'.outbox| == |s.outbox| + 1 ==> Names(s'.transfers, s'.outbox[|s.outbox|].payload))
  {
    hide HasRecord, FindKey;
  }

  lemma ApplyKeepsEvents(s: Store, e: Effect)
    requires Applicable(s, e) && EventsFaithful(s)
    ensures EventsFaithful(Apply(s, e))
  {
    hide HasRecord, FindKey, Names;
    var s' := Apply(s, e);
    ApplyIsLater(s, e);
    forall i | 0 <= i < |s'.outbox| ensures Names(s'.transfers, s'.outbox[i].payload) {
      if i < |s.outbox| {
        assert EventLater(s.outbox[i], s'.outbox[i]);
        NamesLater(s.transfers, s'.transfers, s.outbox[i].payload);
      } else {
        NewEventNames(s, e);
      }
    }
  }

  lemma MessageStaysFaithful(s: Store, s': Store, m: Message)
    requires Later(s, s') && MessageFaithful(s, m)
    ensures MessageFaithful(s', m)
  {
    assert EventLater(s.outbox[m.event], s'.outbox[m.event]);
    NamesLater(s.transfers, s'.transfers, m.payload);
  }

  lemma StepIsLater(y: System, a: Action)
    ensures Later(y.store, Step(y, a).store)
  {
    hide Step, EffectOf, Apply, Later;
    StepAppliesEffect(y, a);
    ApplyIsLater(y.store, EffectOf(y, a));
  }

  /** The broker's log grows by at most one message, the event the relay stands at. */
  lemma StepPublishes(y: System, a: Action)
    ensures var y' := Step(y, a);
            || (y'.published == y.published && y'.queue <= y.queue)
            || (a.Publish? && AboutToPublish(y) && y'.store == y.store
                && var e := y.relay.batch[y.relay.pos];
                   && y'.published == y.published + [Message(e, y.store.outbox[e].payload)]
                   && y'.queue == if y.store.outbox[e].payload.TransferInitiated?
                                  then y.queue + {|y.published|} else y.queue)
  {
    hide Apply, Poll;
  }

  lemma StepKeepsBroker(y: System, a: Action)
    requires EventsFaithful(y.store) && BrokerFaithful(y)
    ensures BrokerFaithful(Step(y, a))
  {
    hide Step, EffectOf, Apply, Names, Later;
    var y' := Step(y, a);
    StepPublishes(y, a);
    StepIsLater(y, a);
    forall m | 0 <= m < |y'.published| ensures MessageFaithful(y'.store, y'.published[m]) {
      if m < |y.published| {
        MessageStaysFaithful(y.store, y'.store, y.published[m]);
      }
    }
  }

  lemma HandlerStaysFaithful(published: seq<Message>, more: seq<Message>, x: Delivery)
    requires published <= more && HandlerFaithful(published, x)
    ensures HandlerFaithful(more, x)
  {
  }

  lemma StepKeepsHandlers(y: System, a: Action)
    requires BrokerFaithful(y) && HandlersFaithful(y)
    ensures HandlersFaithful(Step(y, a))
  {
    hide Apply, Poll, Names;
    var y' := Step(y, a);
    StepPublishes(y, a);
    forall d | 0 <= d < |y'.deliveries| ensures HandlerFaithful(y'.published, y'.deliveries[d]) {
      if d < |y.deliveries| {
        HandlerStaysFaithful(y.published, y'.published, y.deliveries[d]);
      }
    }
  }

  lemma StepKeepsFaithful(y: System, a: Action)
    requires Faithful(y)
    ensures Faithful(Step(y, a))
  {
    hide Step, EffectOf, Apply, EventsFaithful, BrokerFaithful, HandlersFaithful;
    StepAppliesEffect(y, a);
    ApplyKeepsEvents(y.store, EffectOf(y, a));
    StepKeepsBroker(y, a);
    StepKeepsHandlers(y, a);
  }

  /** Payload fidelity from outbox to handler over every interleaving. */
  lemma {:induction false} RunKeepsFaithful(y: System, actions: seq<Action>)
    requires Faithful(y)
    ensures Faithful(Run(y, actions))
  {
    hide Step, Faithful;
    if actions != [] {
      var n := |actions| - 1;
      RunKeepsFaithful(y, actions[..n]);
      StepKeepsFaithful(Run(y, actions[..n]), actions[n]);
    }
  }

  /** The credit of the consumer, which it takes from the event and not from the document, is the
      transfer's own amount to the transfer's own receiver. */
  predicate OwnCredit(s: Store, e: Effect) {
    e.Settled? ==>
      && e.transfer < |s.transfers|
      && s.transfers[e.transfer].to == e.to
      && s.transfers[e.transfer].amount == e.amount
  }

  lemma SettlesOwnTransfer(y: System, a: Action)
    requires Faithful(y)
    ensures OwnCredit(y.store, EffectOf(y, a))
  {
    if EffectOf(y, a).Settled? {
      var x := y.deliveries[a.delivery];
      assert HandlerFaithful(y.published, x);
      assert MessageFaithful(y.store, y.published[x.msg]);
    }
  }

  lemma SettlesOwnTransferAlways(x: Execution, i: nat)
    requires Faithful(x.First()) && i < |x.actions|
    ensures OwnCredit(x.states[i].store, x.Effects()[i])
  {
    hide Step, EffectOf, Faithful, Run;
    ExecutionIsRun(x, 0, i);
    RunKeepsFaithful(x.First(), x.actions[0..i]);
    SettlesOwnTransfer(x.states[i], x.actions[i]);
  }

  // ------------------------------------------------- nothing is lost

  /** The transfer has left PENDING, or the payload is about no transfer at all. */
  predicate Resolved(s: Store, p: Payload) {
    p.TransferInitiated? ==> p.transfer < |s.transfers| && s.transfers[p.transfer].status != PENDING
  }

  /** Messages leave the queue, and handlers are about to acknowledge, for resolved transfers only. */
  predicate AcksAreSafe(y: System) {
    && (forall m :: 0 <= m < |y.published| && m !in y.queue ==> Resolved(y.store, y.published[m].payload))
    && (forall d :: 0 <= d < |y.deliveries| && y.deliveries[d].Acking? ==>
          y.deliveries[d].msg < |y.published| && Resolved(y.store, y.published[y.deliveries[d].msg].payload))
  }

  predicate Accepted(published: seq<Message>, e: EventId) {
    exists m :: 0 <= m < |published| && published[m].event == e
  }

  /** An event is marked, or about to be marked, only after the broker has accepted it; an older process
      may also have marked events of transfers that are resolved by now. */
  predicate MarksAreSafe(y: System) {
    && (forall e :: 0 <= e < |y.store.outbox| && y.store.outbox[e].status == PUBLISHED ==>
          Accepted(y.published, e) || Resolved(y.store, y.store.outbox[e].payload))
    && (AboutToMark(y) ==> Accepted(y.published, y.relay.batch[y.relay.pos]))
  }

  /** The transfer's event is still staged, or one of its messages is still un-acknowledged. */
  predicate InTransit(y: System, t: TransferId) {
    || (exists e :: 0 <= e < |y.store.outbox| && y.store.outbox[e].status == STAGED
                    && y.store.outbox[e].payload.TransferInitiated? && y.store.outbox[e].payload.transfer == t)
    || (exists m :: m in y.queue && m < |y.published|
                    && y.published[m].payload.TransferInitiated? && y.published[m].payload.transfer == t)
  }

  predicate Announced(outbox: seq<OutboxEvent>, t: TransferId) {
    exists e :: 0 <= e < |outbox| && outbox[e].payload.TransferInitiated? && outbox[e].payload.transfer == t
  }

  lemma ResolvedLater(s: Store, s': Store, p: Payload)
    requires TransfersLater(s.transfers, s'.transfers) && Resolved(s, p)
    ensures Resolved(s', p)
  {
    if p.TransferInitiated? {
      assert TransferLater(s.transfers[p.transfer], s'.transfers[p.transfer]);
    }
  }

  /** A handler turns to acknowledging only after it has seen, or itself committed, a resolved transfer. */
  lemma NewAcksAreResolved(y: System, a: Action, d: nat)
    requires Faithful(y)
    requires d < |Step(y, a).deliveries| && Step(y, a).deliveries[d].Acking?
    requires d >= |y.deliveries| || !y.deliveries[d].Acking?
    ensures var m := Step(y, a).deliveries[d].msg;
            m < |y.published| && Resolved(Step(y, a).store, y.published[m].payload)
  {
    hide Poll, HasRecord, FindKey;
    if a.Settle? {
      assert HandlerFaithful(y.published, y.deliveries[d]);
      assert MessageFaithful(y.store, y.published[y.deliveries[d].msg]);
    } else {
      assert a.Deliver?;
      assert MessageFaithful(y.store, y.published[a.msg]);
    }
  }

  lemma StepDequeues(y: System, a: Action, m: MessageId)
    requires m in y.queue && m !in Step(y, a).queue
    ensures a.Ack? && a.delivery < |y.deliveries| && y.deliveries[a.delivery] == Acking(m)
  {
    hide Apply, Poll, EffectOf;
  }

  lemma AckedStaysAcked(y: System, a: Action, d: nat)
    requires d < |y.deliveries| && d < |Step(y, a).deliveries|
    requires y.deliveries[d].Acking? && Step(y, a).deliveries[d].Acking?
    ensures Step(y, a).deliveries[d] == y.deliveries[d]
  {
    hide Apply, Poll, EffectOf;
  }

  lemma EmptyIsResolved(s: Store, p: Payload)
    requires !p.TransferInitiated?
    ensures Resolved(s, p)
  {
  }

  lemma StepKeepsAcksSafe(y: System, a: Action)
    requires Faithful(y) && AcksAreSafe(y)
    ensures AcksAreSafe(Step(y, a))
  {
    hide Step, EffectOf, Apply, Faithful, Resolved;
    var y' := Step(y, a);
    StepPublishes(y, a);
    StepIsLater(y, a);
    forall m | 0 <= m < |y'.published| && m !in y'.queue ensures Resolved(y'.store, y'.published[m].payload) {
      if m == |y.published| {
        EmptyIsResolved(y'.store, y'.published[m].payload);
      } else if m in y.queue {
        StepDequeues(y, a, m);
        ResolvedLater(y.store, y'.store, y.published[m].payload);
      } else {
        ResolvedLater(y.store, y'.store, y.published[m].payload);
      }
    }
    forall d | 0 <= d < |y'.deliveries| && y'.deliveries[d].Acking?
      ensures y'.deliveries[d].msg < |y'.published| && Resolved(y'.store, y'.published[y'.deliveries[d].msg].payload)
    {
      if d < |y.deliveries| && y.deliveries[d].Acking? {
        AckedStaysAcked(y, a, d);
        ResolvedLater(y.store, y'.store, y.published[y.deliveries[d].msg].payload);
      } else {
        NewAcksAreResolved(y, a, d);
      }
    }
  }

  lemma AcceptedStays(published: seq<Message>, more: seq<Message>, e: EventId)
    requires published <= more && Accepted(published, e)
    ensures Accepted(more, e)
  {
    var m :| 0 <= m < |published| && published[m].event == e;
    assert more[m].event == e;
  }

  /** An event newly marked, or newly about to be marked, was accepted before. */
  lemma StepMarks(y: System, a: Action)
    ensures forall e :: 0 <= e < |Step(y, a).store.outbox| && Step(y, a).store.outbox[e].status == PUBLISHED ==>
              || (e < |y.store.outbox| && y.store.outbox[e].status == PUBLISHED)
              || (AboutToMark(y) && y.relay.batch[y.relay.pos] == e)
    ensures AboutToMark(Step(y, a)) ==>
              || (AboutToMark(y) && Step(y, a).relay == y.relay)
              || (a.Publish? && AboutToPublish(y)
                  && Step(y, a).relay.batch[Step(y, a).relay.pos] == y.relay.batch[y.relay.pos]
                  && |Step(y, a).published| == |y.published| + 1
                  && Step(y, a).published[|y.published|].event == y.relay.batch[y.relay.pos])
  {
    hide HasRecord, FindKey;
  }

  lemma LastIsAccepted(published: seq<Message>, e: EventId)
    requires published != [] && published[|published| - 1].event == e
    ensures Accepted(published, e)
  {
  }

  lemma StepKeepsMarksSafe(y: System, a: Action)
    requires MarksAreSafe(y)
    ensures MarksAreSafe(Step(y, a))
  {
    hide Step, EffectOf, Apply, Accepted, Resolved;
    var y' := Step(y, a);
    StepPublishes(y, a);
    StepMarks(y, a);
    StepIsLater(y, a);
    forall e | 0 <= e < |y'.store.outbox| && y'.store.outbox[e].status == PUBLISHED
      ensures Accepted(y'.published, e) || Resolved(y'.store, y'.store.outbox[e].payload)
    {
      if e < |y.store.outbox| && y.store.outbox[e].status == PUBLISHED && !Accepted(y.published, e) {
        ResolvedLater(y.store, y'.store, y.store.outbox[e].payload);
        assert EventLater(y.store.outbox[e], y'.store.outbox[e]);
      } else {
        AcceptedStays(y.published, y'.published, e);
      }
    }
    if AboutToMark(y') {
      var e := y'.relay.batch[y'.relay.pos];
      if AboutToMark(y) && y'.relay == y.relay {
        AcceptedStays(y.published, y'.published, e);
      } else {
        LastIsAccepted(y'.published, e);
      }
    }
  }

  /** Transfers from `first` on were created by `transfer` and so have an outbox event. */
  predicate AllAnnounced(s: Store, first: nat) {
    forall t :: first <= t < |s.transfers| ==> Announced(s.outbox, t)
  }

  lemma AnnouncedStays(s: Store, s': Store, t: TransferId)
    requires Later(s, s') && Announced(s.outbox, t)
    ensures Announced(s'.outbox, t)
  {
    var i :| 0 <= i < |s.outbox| && s.outbox[i].payload.TransferInitiated? && s.outbox[i].payload.transfer == t;
    assert EventLater(s.outbox[i], s'.outbox[i]);
  }

  lemma ApplyKeepsAnnounced(s: Store, e: Effect, first: nat)
    requires Applicable(s, e) && AllAnnounced(s, first)
    ensures AllAnnounced(Apply(s, e), first)
  {
    hide HasRecord, FindKey;
    var s' := Apply(s, e);
    ApplyIsLater(s, e);
    forall t | first <= t < |s'.transfers| ensures Announced(s'.outbox, t) {
      if t < |s.transfers| {
        AnnouncedStays(s, s', t);
      } else {
        assert s'.outbox[|s.outbox|].payload.transfer == t;
      }
    }
  }

  /** The whole route at once. */
  predicate Tracked(y: System, first: nat) {
    Faithful(y) && AcksAreSafe(y) && MarksAreSafe(y) && AllAnnounced(y.store, first)
  }

  lemma {:induction false} RunKeepsTracked(y: System, actions: seq<Action>, first: nat)
    requires Tracked(y, first)
    ensures Tracked(Run(y, actions), first)
  {
    hide Step, EffectOf, Apply, Faithful, AcksAreSafe, MarksAreSafe, AllAnnounced;
    if actions != [] {
      var n := |actions| - 1;
      var before := Run(y, actions[..n]);
      RunKeepsTracked(y, actions[..n], first);
      StepKeepsFaithful(before, actions[n]);
      StepKeepsAcksSafe(before, actions[n]);
      StepKeepsMarksSafe(before, actions[n]);
      StepAppliesEffect(before, actions[n]);
      ApplyKeepsAnnounced(before.store, EffectOf(before, actions[n]), first);
    }
  }

  lemma TrackedIsInTransit(y: System, first: nat, t: TransferId)
    requires Tracked(y, first)
    requires t < |y.store.transfers| && y.store.transfers[t].status == PENDING
    requires Announced(y.store.outbox, t)
    ensures InTransit(y, t)
  {
    var e :| 0 <= e < |y.store.outbox|
             && y.store.outbox[e].payload.TransferInitiated? && y.store.outbox[e].payload.transfer == t;
    if y.store.outbox[e].status == PUBLISHED {
      assert !Resolved(y.store, y.store.outbox[e].payload);
      assert Accepted(y.published, e);
      var m :| 0 <= m < |y.published| && y.published[m].event == e;
      assert MessageFaithful(y.store, y.published[m]);
      assert m in y.queue;
    }
  }

  /** A process booted over a store with faithful events tracks every transfer, provided that the
      transfers of the events already PUBLISHED have left PENDING. */
  lemma BootIsTracked(s: Store, now: Time)
    requires EventsFaithful(s)
    requires forall e :: 0 <= e < |s.outbox| && s.outbox[e].status == PUBLISHED ==> Resolved(s, s.outbox[e].payload)
    ensures Tracked(Boot(s, now), |s.transfers|)
  {
  }

  lemma RestartIsFaithful(y: System)
    requires Faithful(y)
    ensures Faithful(y.(calls := [], relay := Idle, deliveries := [], sweeps := []))
  {
  }

  /** Once tracked, tracked also by the next process over the same store and broker: a crash loses what
      was running, not what is stored or queued. */
  lemma RestartIsTracked(y: System, first: nat)
    requires Tracked(y, first)
    ensures Tracked(y.(calls := [], relay := Idle, deliveries := [], sweeps := []), first)
  {
    hide Faithful, EventsFaithful, MessageFaithful, Resolved, Accepted, Announced;
    RestartIsFaithful(y);
  }

  /** No transfer is ever lost: whatever fails, crashes or is delivered twice, a transfer that
      `transfer` created since the start, or that had an event at the start, and that is still PENDING
      has its event staged or one of its messages un-acknowledged. */
  lemma NoTransferIsLost(x: Execution, first: nat, t: TransferId)
    requires Tracked(x.First(), first)
    requires t < |x.Last().store.transfers| && x.Last().store.transfers[t].status == PENDING
    requires first <= t || Announced(x.First().store.outbox, t)
    ensures InTransit(x.Last(), t)
  {
    hide Step, Run, Faithful, Announced, Later, InTransit, AcksAreSafe, MarksAreSafe;
    WholeExecutionIsRun(x);
    RunKeepsTracked(x.First(), x.actions, first);
    RunIsLater(x.First(), x.actions);
    if Announced(x.First().store.outbox, t) {
      AnnouncedStays(x.First().store, x.Last().store, t);
    }
    TrackedIsInTransit(x.Last(), first, t);
  }
}
