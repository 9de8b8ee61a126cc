/** The whole platform as a state machine.  An action is one step between two awaits that other
    requests, deliveries, sweeps and the relay can observe; every choice of the environment
    (aborts, lost replies, crashes, redeliveries) is a parameter of the action.  An action that
    does not apply changes nothing, so every sequence of actions is a run. */
module Platform {
  import opened Types
  import opened Stores

  /** One of the two concurrent wallet reads of `transfer`. */
  datatype Fetched = Unread | Missing | Got(wallet: Snapshot)

  /** An HTTP request between two of its awaits, or after it has ended.  `Fetching` waits for its two
      wallet reads, `Duplicate` looks up the transfer whose key its session collided with. */
  datatype Call =
    | Depositing(wallet: Snapshot, amount: Amount)
    | Withdrawing(wallet: Snapshot, amount: Amount)
    | Fetching(source: WalletId, target: WalletId, amount: Amount, key: Option<Key>,
               sender: Fetched, receiver: Fetched)
    | Transferring(from: Snapshot, to: Snapshot, amount: Amount, key: Option<Key>)
    | Duplicate(taken: Key)
    | Replied(key: Option<Key>, transfer: TransferId)
    | Closed

  /** One execution of the consumer's message handler: it has read its transfer, then its receiver,
      then it runs its session. */
  datatype Delivery =
    | Locating(msg: MessageId, transfer: TransferId, amount: Amount, receiver: WalletId)
    | Settling(msg: MessageId, transfer: TransferId, amount: Amount, to: Snapshot)
    | Failing(msg: MessageId, transfer: TransferId, reason: FailureReason)
    | Acking(msg: MessageId)
    | Finished

  datatype Message = Message(event: EventId, payload: Payload)

  /** The relay's `running` flag with its batch, the position in it, and whether the event at
      that position has been published but not yet marked. */
  datatype Relay =
    | Idle
    | Busy(batch: seq<EventId>, pos: nat, sent: bool)

  /** A sweep: the transfers it still has to look at and what it awaits for the first of them. */
  datatype Sweep = Sweep(list: seq<TransferId>, stage: Stage)

  datatype System = System(
    store: Store,
    now: Time,
    calls: seq<Call>,
    relay: Relay,
    published: seq<Message>,     // everything the broker ever accepted, in order
    queue: set<MessageId>,       // un-acknowledged messages of the transfer queue
    deliveries: seq<Delivery>,
    sweeps: seq<Sweep>)

  /** A freshly started process over a given store. */
  function Boot(s: Store, now: Time): System {
    System(s, now, [], Idle, [], {}, [], [])
  }

  const EMPTY := Boot(EMPTY_STORE, 0)

  /** An await can fail before or after the remote side has acted. */
  datatype Remote = Succeeds | FailsBefore | FailsAfter

  datatype Action =
    | Tick
    | OpenWallet
    | ReadForDeposit(wallet: WalletId, amount: Amount)
    | ReadForWithdrawal(wallet: WalletId, amount: Amount)
    | ReadForTransfer(from: WalletId, to: WalletId, amount: Amount, key: Option<Key>)
    | FetchSender(call: nat)
    | FetchReceiver(call: nat)
    | EndCall(call: nat, end: SessionEnd)
    | LookUpDuplicate(call: nat)
    | PollOutbox
    | Publish(remote: Remote)
    | MarkSent(remote: Remote)
    | RestartRelay
    | Deliver(msg: MessageId)
    | LocateReceiver(delivery: nat)
    | Settle(delivery: nat, end: SessionEnd)
    | SaveFailed(delivery: nat, saved: bool)
    | Ack(delivery: nat)
    | CrashDelivery(delivery: nat)
    | QueryStale(timeout: nat)
    | Recover(sweep: nat, await: Await)

  const BATCH_SIZE: nat := 50

  // ------------------------------------------------------------- one action

  function CallEffect(s: Store, c: Call, now: Time, end: SessionEnd): (e: Effect)
    ensures Applicable(s, e)
  {
    match c
    case Depositing(w, a) => DepositEffect(s, w, a, end)
    case Withdrawing(w, a) => WithdrawEffect(s, w, a, end)
    case Transferring(f, t, a, key) => TransferEffect(s, f, t, a, key, now, end)
    case _ => NoEffect
  }

  predicate AboutToMark(y: System) {
    y.relay.Busy? && y.relay.sent && y.relay.pos < |y.relay.batch|
  }

  /** The store change that an action makes. */
  function EffectOf(y: System, a: Action): (e: Effect)
    ensures Applicable(y.store, e)
  {
    match a
    case OpenWallet => WalletCreated
    case EndCall(i, end) =>
      if |y.calls| <= i then NoEffect else CallEffect(y.store, y.calls[i], y.now, end)
    case MarkSent(remote) =>
      if AboutToMark(y) && remote != FailsBefore && y.relay.batch[y.relay.pos] < |y.store.outbox|
      then MarkedPublished(y.relay.batch[y.relay.pos]) else NoEffect
    case Settle(d, end) =>
      if d < |y.deliveries| && y.deliveries[d].Settling?
      then var x := y.deliveries[d]; SettleEffect(y.store, x.transfer, x.to, x.amount, end)
      else NoEffect
    case SaveFailed(d, saved) =>
      if d < |y.deliveries| && y.deliveries[d].Failing? && saved && y.deliveries[d].transfer < |y.store.transfers|
      then MarkedFailed(y.deliveries[d].transfer, y.deliveries[d].reason)
      else NoEffect
    case Recover(k, await) =>
      if k < |y.sweeps| && y.sweeps[k].list != []
      then StageEffect(y.store, y.sweeps[k].list[0], y.sweeps[k].stage, await) else NoEffect
    case _ => NoEffect
  }

  /** The state of a request after its session.  The unique index refuses a second document under a
      key; an error in any other await ends the request. */
  function AfterCall(s: Store, c: Call, end: SessionEnd): Call {
    match c
    case Transferring(f, t, a, key) =>
      if !BothMatch(s, f, t, a) || end == AbortsBeforeRecord then Closed
      else if KeyTaken(s, key) then Duplicate(key.value)
      else if end == Commits then Replied(key, |s.transfers|)
      else Closed
    case Replied(_, _) => c
    case _ => Closed
  }

  /** `transfer` up to its first await: refusal, early return on a known key, or on to the reads. */
  function StartTransfer(s: Store, from: WalletId, to: WalletId, amount: Amount, key: Option<Key>): Call {
    if from == to then Closed
    else if KeyTaken(s, key) then Replied(key, FindKey(s.transfers, key.value).value)
    else Fetching(from, to, amount, key, Unread, Unread)
  }

  function Fetch(s: Store, w: WalletId): Fetched {
    if w < |s.wallets| then Got(Read(s, w)) else Missing
  }

  /** Once both wallets have been read: refusal, or on to the session. */
  function AfterFetch(c: Call): Call
    requires c.Fetching?
  {
    if c.sender == Unread || c.receiver == Unread then c
    else if c.sender == Missing || c.receiver == Missing then Closed
    else if c.sender.wallet.balance < c.amount then Closed
    else Transferring(c.sender.wallet, c.receiver.wallet, c.amount, c.key)
  }

  function AfterFetchSender(s: Store, c: Call): Call {
    if c.Fetching? && c.sender == Unread then AfterFetch(c.(sender := Fetch(s, c.source))) else c
  }

  function AfterFetchReceiver(s: Store, c: Call): Call {
    if c.Fetching? && c.receiver == Unread then AfterFetch(c.(receiver := Fetch(s, c.target))) else c
  }

  function AfterLookUp(s: Store, c: Call): Call {
    if !c.Duplicate? then c
    else
      match FindKey(s.transfers, c.taken)
      case Some(t) => Replied(Some(c.taken), t)
      case None => Closed
  }

  function StartDeposit(s: Store, w: WalletId, amount: Amount): Call {
    if |s.wallets| <= w then Closed else Depositing(Read(s, w), amount)
  }

  function StartWithdrawal(s: Store, w: WalletId, amount: Amount): Call {
    if |s.wallets| <= w then Closed
    else if s.wallets[w].balance < amount then Closed
    else Withdrawing(Read(s, w), amount)
  }

  /** The first read of `completeTransfer`: the transfer. */
  function Receive(s: Store, m: MessageId, p: Payload): Delivery
    requires p.TransferInitiated?
  {
    if |s.transfers| <= p.transfer then Acking(m)
    else if s.transfers[p.transfer].status == COMPLETED then Acking(m)
    else if s.transfers[p.transfer].status == FAILED then Acking(m)
    else Locating(m, p.transfer, p.amount, p.to)
  }

  /** Its second read: the receiver's wallet. */
  function Locate(s: Store, x: Delivery): Delivery
    requires x.Locating?
  {
    if |s.wallets| <= x.receiver then Failing(x.msg, x.transfer, DestinationNotFound)
    else Settling(x.msg, x.transfer, x.amount, Read(s, x.receiver))
  }

  /** A message handler after its session: acknowledge on commit, otherwise save FAILED. */
  function AfterSession(x: Delivery, e: Effect): Delivery
    requires x.Settling?
  {
    if e.Settled? then Acking(x.msg) else Failing(x.msg, x.transfer, SettlementFailed)
  }

  predicate AboutToPublish(y: System) {
    y.relay.Busy? && !y.relay.sent && y.relay.pos < |y.relay.batch| && y.relay.batch[y.relay.pos] < |y.store.outbox|
  }

  /** The broker accepts an event; only `transfer.*` keys are bound to the transfer queue. */
  function Accept(y: System, e: EventId): System
    requires e < |y.store.outbox|
  {
    var p := y.store.outbox[e].payload;
    y.(published := y.published + [Message(e, p)],
       queue := if p.TransferInitiated? then y.queue + {|y.published|} else y.queue)
  }

  function Poll(outbox: seq<OutboxEvent>): Relay {
    var batch := Take(Staged(outbox), BATCH_SIZE);
    if batch == [] then Idle else Busy(batch, 0, false)
  }

  function AfterMark(r: Relay): Relay
    requires r.Busy?
  {
    if r.pos + 1 < |r.batch| then Busy(r.batch, r.pos + 1, false) else Idle
  }

  /** A sweep after one await of its current recovery; when that is over it turns to the next one. */
  function AfterStage(s: Store, x: Sweep, await: Await): Sweep
    requires x.list != []
  {
    match NextStage(s, x.list[0], x.stage, await)
    case Some(stage) => Sweep(x.list, stage)
    case None => Sweep(x.list[1..], CreditCheck)
  }

  function Step(y: System, a: Action): System {
    var e := EffectOf(y, a);
    var s := Apply(y.store, e);
    match a
    case Tick => y.(now := y.now + 1)
    case OpenWallet => y.(store := s)
    case ReadForDeposit(w, amount) => y.(calls := y.calls + [StartDeposit(y.store, w, amount)])
    case ReadForWithdrawal(w, amount) => y.(calls := y.calls + [StartWithdrawal(y.store, w, amount)])
    case ReadForTransfer(f, t, amount, key) =>
      y.(calls := y.calls + [StartTransfer(y.store, f, t, amount, key)])
    case EndCall(i, end) =>
      if |y.calls| <= i then y
      else y.(store := s, calls := y.calls[i := AfterCall(y.store, y.calls[i], end)])
    case FetchSender(i) =>
      if |y.calls| <= i then y else y.(calls := y.calls[i := AfterFetchSender(y.store, y.calls[i])])
    case FetchReceiver(i) =>
      if |y.calls| <= i then y else y.(calls := y.calls[i := AfterFetchReceiver(y.store, y.calls[i])])
    case LookUpDuplicate(i) =>
      if |y.calls| <= i then y else y.(calls := y.calls[i := AfterLookUp(y.store, y.calls[i])])
    case PollOutbox => if y.relay.Idle? then y.(relay := Poll(y.store.outbox)) else y
    case Publish(remote) =>
      if !AboutToPublish(y) then y
      else (match remote
            case Succeeds => Accept(y, y.relay.batch[y.relay.pos]).(relay := y.relay.(sent := true))
            case FailsBefore => y.(relay := Idle)
            case FailsAfter => Accept(y, y.relay.batch[y.relay.pos]).(relay := Idle))
    case MarkSent(remote) =>
      if !AboutToMark(y) then y
      else y.(store := s, relay := if remote == Succeeds then AfterMark(y.relay) else Idle)
    case RestartRelay => y.(relay := Idle)
    case Deliver(m) =>
      if m in y.queue && m < |y.published| && y.published[m].payload.TransferInitiated?
      then y.(deliveries := y.deliveries + [Receive(y.store, m, y.published[m].payload)])
      else y.(deliveries := y.deliveries + [Finished])
    case LocateReceiver(d) =>
      if d < |y.deliveries| && y.deliveries[d].Locating?
      then y.(deliveries := y.deliveries[d := Locate(y.store, y.deliveries[d])])
      else y
    case Settle(d, end) =>
      if d < |y.deliveries| && y.deliveries[d].Settling?
      then y.(store := s, deliveries := y.deliveries[d := AfterSession(y.deliveries[d], e)])
      else y
    case SaveFailed(d, saved) =>
      if d < |y.deliveries| && y.deliveries[d].Failing?
      then y.(store := s, deliveries := y.deliveries[d := Finished])
      else y
    case Ack(d) =>
      if d < |y.deliveries| && y.deliveries[d].Acking?
      then y.(queue := y.queue - {y.deliveries[d].msg}, deliveries := y.deliveries[d := Finished])
      else y
    case CrashDelivery(d) =>
      if d < |y.deliveries| then y.(deliveries := y.deliveries[d := Finished]) else y
    case QueryStale(timeout) =>
      y.(sweeps := y.sweeps + [Sweep(Stale(y.store.transfers, y.now - timeout), CreditCheck)])
    case Recover(k, await) =>
      if k < |y.sweeps| && y.sweeps[k].list != []
      then y.(store := s, sweeps := y.sweeps[k := AfterStage(y.store, y.sweeps[k], await)])
      else y
  }

  // ------------------------------------------------------------------- runs

  function Run(y: System, actions: seq<Action>): System {
    if actions == [] then y else
      var n := |actions| - 1;
      Step(Run(y, actions[..n]), actions[n])
  }

  /** The store changes of a run, one per action, in order. */
  function History(y: System, actions: seq<Action>): (h: seq<Effect>)
    ensures |h| == |actions|
  {
    if actions == [] then [] else
      var n := |actions| - 1;
      History(y, actions[..n]) + [EffectOf(Run(y, actions[..n]), actions[n])]
  }

  /** An action touches the store by its effect and in no other way. */
  lemma StepAppliesEffect(y: System, a: Action)
    ensures Step(y, a).store == Apply(y.store, EffectOf(y, a))
  {
  }

  lemma RunEmpty(y: System)
    ensures Run(y, []) == y && History(y, []) == []
  {
  }

  lemma RunSnoc(y: System, actions: seq<Action>, a: Action)
    ensures Run(y, actions + [a]) == Step(Run(y, actions), a)
    ensures History(y, actions + [a]) == History(y, actions) + [EffectOf(Run(y, actions), a)]
  {
    hide Step, EffectOf;
    assert (actions + [a])[..|actions|] == actions;
  }

  lemma {:induction false} RunConcat(y: System, first: seq<Action>, second: seq<Action>)
    ensures Run(y, first + second) == Run(Run(y, first), second)
    ensures History(y, first + second) == History(y, first) + History(Run(y, first), second)
    decreases |second|
  {
    hide Step, EffectOf;
    if second == [] {
      assert first + second == first;
    } else {
      var n := |second| - 1;
      RunConcat(y, first, second[..n]);
      assert (first + second)[..|first| + n] == first + second[..n];
    }
  }

  // ------------------------------------------------------------- executions

  /** A run with all its intermediate states. */
  datatype Trace = Trace(states: seq<System>, actions: seq<Action>)
  {
    predicate Genuine() {
      && |states| == |actions| + 1
      && forall i :: 0 <= i < |actions| ==> states[i + 1] == Step(states[i], actions[i])
    }

    function First(): System
      requires 0 < |states|
    {
      states[0]
    }

    function Last(): System
      requires 0 < |states|
    {
      states[|states| - 1]
    }

    /** The store change of each action. */
    function Effects(): (h: seq<Effect>)
      requires |states| == |actions| + 1
      ensures |h| == |actions|
    {
      seq(|actions|, i requires 0 <= i < |actions| => EffectOf(states[i], actions[i]))
    }
  }

  type Execution = x: Trace | x.Genuine() witness Trace([EMPTY], [])

  /** Between any two of its states an execution is a run. */
  lemma {:induction false} ExecutionIsRun(x: Execution, i: nat, j: nat)
    requires i <= j <= |x.actions|
    ensures Run(x.states[i], x.actions[i..j]) == x.states[j]
    ensures History(x.states[i], x.actions[i..j]) == x.Effects()[i..j]
    decreases j
  {
    hide Step, EffectOf, Run, History;
    if i == j {
      RunEmpty(x.states[i]);
      assert x.actions[i..j] == [] && x.Effects()[i..j] == [];
    } else {
      ExecutionIsRun(x, i, j - 1);
      RunSnoc(x.states[i], x.actions[i..j - 1], x.actions[j - 1]);
      assert x.actions[i..j] == x.actions[i..j - 1] + [x.actions[j - 1]];
      assert x.Effects()[i..j] == x.Effects()[i..j - 1] + [EffectOf(x.states[j - 1], x.actions[j - 1])];
      assert x.states[j] == Step(x.states[j - 1], x.actions[j - 1]);
    }
  }

  lemma WholeExecutionIsRun(x: Execution)
    ensures Run(x.First(), x.actions) == x.Last()
    ensures History(x.First(), x.actions) == x.Effects()
  {
    hide Step, EffectOf, Run, History;
    ExecutionIsRun(x, 0, |x.actions|);
    assert x.actions[0..|x.actions|] == x.actions;
    assert x.Effects()[0..|x.actions|] == x.Effects();
  }

  /** Every sequence of actions has its execution, so what holds of executions holds of all runs. */
  lemma {:induction false} EveryRunIsExecution(y: System, actions: seq<Action>) returns (x: Execution)
    ensures x.First() == y && x.actions == actions && x.Last() == Run(y, actions)
  {
    hide Step;
    if actions == [] {
      x := Trace([y], []);
    } else {
      var n := |actions| - 1;
      var before := EveryRunIsExecution(y, actions[..n]);
      x := Trace(before.states + [Step(before.Last(), actions[n])], actions);
    }
  }
}
