/** With uninterrupted handlers whose FAILED saves and acknowledgements succeed, the queue drains. */
module Draining {
  import opened Types
  import opened Stores
  import opened Platform
  import opened Evolution
  import opened Deliveries
  import opened AtomicDelivery

  function PendingCount(transfers: seq<Transfer>): nat {
    if transfers == [] then 0 else
      var n := |transfers| - 1;
      PendingCount(transfers[..n]) + if transfers[n].status == PENDING then 1 else 0
  }

  function QueueLength(y: System): nat {
    |y.queue|
  }

  lemma {:induction false} PendingUpdate(transfers: seq<Transfer>, t: TransferId, x: Transfer)
    requires t < |transfers| && x.status != PENDING
    ensures PendingCount(transfers[t := x]) == PendingCount(transfers) - if transfers[t].status == PENDING then 1 else 0
  {
    var n := |transfers| - 1;
    if t < n {
      PendingUpdate(transfers[..n], t, x);
      assert transfers[t := x][..n] == transfers[..n][t := x];
    } else {
      assert transfers[t := x][..n] == transfers[..n];
    }
  }

  /** A message and how its handler's session goes. */
  datatype Attempt = Attempt(msg: MessageId, end: SessionEnd)

  function Try(y: System, x: Attempt): System {
    Handle(y, Delivered(x.msg, x.end, true, true))
  }

  function TryAll(y: System, attempts: seq<Attempt>): System {
    if attempts == [] then y else Try(TryAll(y, attempts[..|attempts| - 1]), attempts[|attempts| - 1])
  }

  /** Every attempt handles a message that is still queued. */
  predicate Scheduled(y: System, attempts: seq<Attempt>) {
    attempts == []
    || (Scheduled(y, attempts[..|attempts| - 1])
        && attempts[|attempts| - 1].msg in TryAll(y, attempts[..|attempts| - 1]).queue)
  }

  lemma TryIsTracked(y: System, x: Attempt, first: nat)
    requires Tracked(y, first)
    ensures Tracked(Try(y, x), first)
  {
    hide Run, Script, Tracked;
    RunKeepsTracked(y, Script(y, Delivered(x.msg, x.end, true, true)), first);
  }

  /** A handled message settles or fails its transfer if that is PENDING, and leaves it alone and is
      acknowledged otherwise. */
  lemma HandleResolves(s: Store, p: Payload, x: Delivered)
    requires p.TransferInitiated? && Names(s.transfers, p) && x.saved
    ensures
      var s' := Apply(s, HandleEffect(s, p, x));
      var t := p.transfer;
      && |s'.transfers| == |s.transfers| && s'.transfers == s.transfers[t := s'.transfers[t]]
      && (s.transfers[t].status == PENDING ==> s'.transfers[t].status != PENDING)
      && (s.transfers[t].status != PENDING ==> s'.transfers == s.transfers && HandlesWell(s, p, x))
  {
    hide HasRecord, FindKey;
  }

  lemma PendingFalls(s: seq<Transfer>, s': seq<Transfer>, t: TransferId)
    requires t < |s| && |s'| == |s| && s' == s[t := s'[t]]
    requires s[t].status == PENDING ==> s'[t].status != PENDING
    requires s[t].status != PENDING ==> s' == s
    ensures PendingCount(s') == PendingCount(s) - if s[t].status == PENDING then 1 else 0
  {
    if s[t].status == PENDING {
      PendingUpdate(s, t, s'[t]);
    }
  }

  lemma Shorter(queue: set<MessageId>, m: MessageId)
    requires m in queue
    ensures |queue - {m}| == |queue| - 1
  {
  }

  /** One delivery lowers the pair (PENDING transfers, queue length) lexicographically: it settles or
      fails a PENDING transfer, or else it removes its message. */
  lemma DeliveryLowers(y: System, x: Attempt)
    requires Faithful(y) && x.msg in y.queue
    ensures
      var y' := Try(y, x);
      var p, p' := PendingCount(y.store.transfers), PendingCount(y'.store.transfers);
      && (p' < p || (p' == p && QueueLength(y') < QueueLength(y)))
      && p' <= p && QueueLength(y') <= QueueLength(y)
  {
    hide Handle, Apply, HandleEffect, HandlesWell, PendingCount, EventsFaithful, HandlersFaithful;
    var d := Delivered(x.msg, x.end, true, true);
    HandleDoes(y, d);
    assert MessageFaithful(y.store, y.published[x.msg]);
    var p := y.published[x.msg].payload;
    HandleResolves(y.store, p, d);
    PendingFalls(y.store.transfers, Try(y, x).store.transfers, p.transfer);
    Shorter(y.queue, x.msg);
  }

  /** However the deliveries are ordered and whichever sessions abort, there are at most as many as
      PENDING transfers plus queued messages. */
  lemma {:induction false} DrainingTerminates(y: System, attempts: seq<Attempt>, first: nat)
    requires Tracked(y, first) && Scheduled(y, attempts)
    ensures Tracked(TryAll(y, attempts), first)
    ensures |attempts| + PendingCount(TryAll(y, attempts).store.transfers) + QueueLength(TryAll(y, attempts))
         <= PendingCount(y.store.transfers) + QueueLength(y)
  {
    hide Try, PendingCount, Faithful, AcksAreSafe, MarksAreSafe, AllAnnounced;
    if attempts != [] {
      var n := |attempts| - 1;
      DrainingTerminates(y, attempts[..n], first);
      TryIsTracked(TryAll(y, attempts[..n]), attempts[n], first);
      DeliveryLowers(TryAll(y, attempts[..n]), attempts[n]);
    }
  }

  // ------------------------------------ with everything else in between

  /** An uninterrupted delivery, or any other step: requests, relay, sweeps await by await, ticks. */
  datatype Turn = Delivery(attempt: Attempt) | Elsewhere(action: Action)

  function TakeTurn(y: System, turn: Turn): System {
    match turn
    case Delivery(x) => Try(y, x)
    case Elsewhere(a) => Step(y, a)
  }

  function TakeTurns(y: System, turns: seq<Turn>): System {
    if turns == [] then y else TakeTurn(TakeTurns(y, turns[..|turns| - 1]), turns[|turns| - 1])
  }

  /** Every delivery is of a message still queued, and handlers act in no other way. */
  predicate InTurn(y: System, turns: seq<Turn>) {
    turns == []
    || (InTurn(y, turns[..|turns| - 1])
        && match turns[|turns| - 1]
           case Delivery(x) => x.msg in TakeTurns(y, turns[..|turns| - 1]).queue
           case Elsewhere(a) => !OfHandlers(a))
  }

  function DeliveryCount(turns: seq<Turn>): nat {
    if turns == [] then 0 else
      DeliveryCount(turns[..|turns| - 1]) + if turns[|turns| - 1].Delivery? then 1 else 0
  }

  /** What is still to do, less what has come in: transfers and accepted messages only grow in number. */
  function Backlog(y: System): int {
    PendingCount(y.store.transfers) + QueueLength(y) - |y.store.transfers| - |y.published|
  }

  lemma {:induction false} PendingLater(s: seq<Transfer>, s': seq<Transfer>)
    requires TransfersLater(s, s')
    ensures PendingCount(s') - |s'| <= PendingCount(s) - |s|
    decreases |s'|
  {
    if s' != [] {
      var n := |s'| - 1;
      if n < |s| {
        assert TransferLater(s[n], s'[n]);
        PendingLater(s[..n], s'[..n]);
      } else {
        PendingLater(s, s'[..n]);
      }
    }
  }

  lemma FewerQueued(queue: set<MessageId>, queue': set<MessageId>)
    requires queue' <= queue
    ensures |queue'| <= |queue|
  {
    assert queue == queue' + (queue - queue');
  }

  lemma OneMoreQueued(queue: set<MessageId>, m: MessageId)
    ensures |queue + {m}| <= |queue| + 1
  {
  }

  lemma TransfersOfLater(s: Store, s': Store)
    requires Later(s, s')
    ensures TransfersLater(s.transfers, s'.transfers)
  {
  }

  lemma ElsewhereKeepsBacklog(y: System, a: Action)
    ensures Backlog(Step(y, a)) <= Backlog(y)
  {
    hide Step, PendingCount, Later;
    StepPublishes(y, a);
    StepIsLater(y, a);
    TransfersOfLater(y.store, Step(y, a).store);
    PendingLater(y.store.transfers, Step(y, a).store.transfers);
    if Step(y, a).published == y.published {
      FewerQueued(y.queue, Step(y, a).queue);
    } else {
      OneMoreQueued(y.queue, |y.published|);
    }
  }

  lemma DeliveryLowersBacklog(y: System, x: Attempt)
    requires Faithful(y) && x.msg in y.queue
    ensures Backlog(Try(y, x)) < Backlog(y)
  {
    hide Handle, Apply, HandleEffect, HandlesWell, PendingCount, EventsFaithful, HandlersFaithful;
    DeliveryLowers(y, x);
    var d := Delivered(x.msg, x.end, true, true);
    HandleDoes(y, d);
    assert MessageFaithful(y.store, y.published[x.msg]);
    HandleResolves(y.store, y.published[x.msg].payload, d);
  }

  lemma TurnKeepsFaithful(y: System, turn: Turn)
    requires Faithful(y)
    ensures Faithful(TakeTurn(y, turn))
  {
    hide Step, Run, Script, Faithful;
    match turn
    case Delivery(x) => RunKeepsFaithful(y, Script(y, Delivered(x.msg, x.end, true, true)));
    case Elsewhere(a) => StepKeepsFaithful(y, a);
  }

  lemma {:induction false} TurnsLowerBacklog(y: System, turns: seq<Turn>)
    requires Faithful(y) && InTurn(y, turns)
    ensures Faithful(TakeTurns(y, turns))
    ensures DeliveryCount(turns) + Backlog(TakeTurns(y, turns)) <= Backlog(y)
  {
    hide Try, Step, Faithful, Backlog;
    if turns != [] {
      var n := |turns| - 1;
      var before := TakeTurns(y, turns[..n]);
      TurnsLowerBacklog(y, turns[..n]);
      TurnKeepsFaithful(before, turns[n]);
      match turns[n]
      case Delivery(x) => DeliveryLowersBacklog(before, x);
      case Elsewhere(a) => ElsewhereKeepsBacklog(before, a);
    }
  }

  /** Whatever requests, relay and sweeps do between them, deliveries are at most as many as PENDING transfers and
      queued messages at the start, transfers created since and messages accepted since; what is
      PENDING or queued at the end has not been used up. */
  lemma DeliveriesAreBounded(y: System, turns: seq<Turn>, z: System)
    requires Faithful(y) && InTurn(y, turns) && z == TakeTurns(y, turns)
    ensures
      DeliveryCount(turns) + PendingCount(z.store.transfers) + QueueLength(z)
        <= PendingCount(y.store.transfers) + QueueLength(y)
           + (|z.store.transfers| - |y.store.transfers|) + (|z.published| - |y.published|)
  {
    hide TakeTurns, DeliveryCount, PendingCount, Faithful, InTurn;
    TurnsLowerBacklog(y, turns);
  }

  /** Once the queue is empty, every transfer that ever had a message is COMPLETED or FAILED. */
  lemma DrainedIsResolved(y: System, first: nat, m: MessageId)
    requires Tracked(y, first) && y.queue == {}
    requires m < |y.published| && y.published[m].payload.TransferInitiated?
    ensures y.published[m].payload.transfer < |y.store.transfers|
    ensures y.store.transfers[y.published[m].payload.transfer].status in {COMPLETED, FAILED}
  {
    assert Resolved(y.store, y.published[m].payload);
  }

  lemma NonEmpty(queue: set<MessageId>)
    requires queue != {}
    ensures 0 < |queue|
  {
  }

  /** From any tracked state, deliveries chosen arbitrarily with arbitrary session outcomes (the
      `choice` of each step) empty the queue within the bound, and then everything is resolved. */
  lemma {:induction false} QueueDrains(y: System, first: nat, choice: System -> Attempt)
    returns (attempts: seq<Attempt>)
    requires Tracked(y, first)
    requires forall z: System :: z.queue != {} ==> choice(z).msg in z.queue
    ensures Scheduled(y, attempts)
    ensures forall i :: 0 <= i < |attempts| ==> attempts[i] == choice(TryAll(y, attempts[..i]))
    ensures TryAll(y, attempts).queue == {}
    ensures |attempts| <= PendingCount(y.store.transfers) + QueueLength(y)
  {
    hide Try, PendingCount, Tracked;
    attempts := [];
    while TryAll(y, attempts).queue != {}
      invariant Scheduled(y, attempts)
      invariant forall i :: 0 <= i < |attempts| ==> attempts[i] == choice(TryAll(y, attempts[..i]))
      decreases PendingCount(y.store.transfers) + QueueLength(y) - |attempts|
    {
      var x := choice(TryAll(y, attempts));
      DrainingTerminates(y, attempts, first);
      NonEmpty(TryAll(y, attempts).queue);
      var more := attempts + [x];
      assert more[..|attempts|] == attempts;
      forall i | 0 <= i < |more| ensures more[i] == choice(TryAll(y, more[..i])) {
        if i < |attempts| {
          assert more[..i] == attempts[..i];
        }
      }
      attempts := more;
    }
    DrainingTerminates(y, attempts, first);
  }
}
