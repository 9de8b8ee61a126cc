/** Message handlers and recoveries that run without interruption: debit-only transfers are then credited
    at most once, and the queue drains. */
module AtomicDelivery {
  import opened Types
  import opened Stores
  import opened Platform
  import opened Deliveries
  import opened Records

  // ------------------------------------------------- whole deliveries

  /** One whole execution of the message handler: two reads, session, FAILED save if it aborted, and
      acknowledgement; either of the last two can be lost. */
  datatype Delivered = Delivered(msg: MessageId, end: SessionEnd, saved: bool, acked: bool)

  function Script(y: System, x: Delivered): seq<Action> {
    var d := |y.deliveries|;
    [Deliver(x.msg), LocateReceiver(d), Settle(d, x.end), SaveFailed(d, x.saved),
     if x.acked then Ack(d) else CrashDelivery(d)]
  }

  function Handle(y: System, x: Delivered): System {
    Run(y, Script(y, x))
  }

  predicate Deliverable(y: System, m: MessageId) {
    m in y.queue && m < |y.published| && y.published[m].payload.TransferInitiated?
  }

  /** The branches of the handler, on the state in which it starts. */
  function HandleEffect(s: Store, p: Payload, x: Delivered): (e: Effect)
    requires p.TransferInitiated?
    ensures Applicable(s, e)
  {
    if |s.transfers| <= p.transfer || s.transfers[p.transfer].status != PENDING then NoEffect
    else if |s.wallets| <= p.to then (if x.saved then MarkedFailed(p.transfer, DestinationNotFound) else NoEffect)
    else if x.end == Commits then Settled(p.transfer, p.to, p.amount)
    else if x.saved then MarkedFailed(p.transfer, SettlementFailed)
    else NoEffect
  }

  /** The handler returns normally, so the message is acknowledged. */
  predicate HandlesWell(s: Store, p: Payload, x: Delivered)
    requires p.TransferInitiated?
  {
    || |s.transfers| <= p.transfer
    || s.transfers[p.transfer].status != PENDING
    || (p.to < |s.wallets| && x.end == Commits)
  }

  function WholeEffect(y: System, x: Delivered): (e: Effect)
    ensures Applicable(y.store, e)
  {
    if Deliverable(y, x.msg) then HandleEffect(y.store, y.published[x.msg].payload, x) else NoEffect
  }

  lemma RunTwo(y: System, y1: System, a: Action, b: Action)
    requires y1 == Step(y, a)
    ensures Run(y, [a, b]) == Step(y1, b)
  {
    hide Step, Run;
    RunEmpty(y);
    RunSnoc(y, [], a);
    RunSnoc(y, [a], b);
    assert [] + [a] == [a];
    assert [a] + [b] == [a, b];
  }

  lemma RunFive(y: System, y1: System, y2: System, y3: System, y4: System,
                a: Action, b: Action, c: Action, d: Action, e: Action)
    requires y1 == Step(y, a)
    requires y2 == Step(y1, b)
    requires y3 == Step(y2, c)
    requires y4 == Step(y3, d)
    ensures Run(y, [a, b, c, d, e]) == Step(y4, e)
  {
    hide Step, Run;
    RunTwo(y, y1, a, b);
    RunSnoc(y, [a, b], c);
    RunSnoc(y, [a, b, c], d);
    RunSnoc(y, [a, b, c, d], e);
    assert [a, b] + [c] == [a, b, c];
    assert [a, b, c] + [d] == [a, b, c, d];
    assert [a, b, c, d] + [e] == [a, b, c, d, e];
  }

  lemma HandleReads(y: System, x: Delivered)
    ensures
      var y1 := Step(y, Deliver(x.msg));
      var handler := if Deliverable(y, x.msg) then Receive(y.store, x.msg, y.published[x.msg].payload) else Finished;
      y1 == y.(deliveries := y.deliveries + [handler])
  {
    hide Receive;
  }

  lemma HandleLocates(y: System, d: nat)
    requires d < |y.deliveries|
    ensures
      var x := y.deliveries[d];
      Step(y, LocateReceiver(d))
        == if x.Locating? then y.(deliveries := y.deliveries[d := Locate(y.store, x)]) else y
  {
    hide Locate;
  }

  lemma HandleSettles(y: System, d: nat, end: SessionEnd)
    requires d < |y.deliveries|
    ensures
      var x := y.deliveries[d];
      var y1 := Step(y, Settle(d, end));
      if x.Settling? then
        var e := SettleEffect(y.store, x.transfer, x.to, x.amount, end);
        y1 == y.(store := Apply(y.store, e), deliveries := y.deliveries[d := AfterSession(x, e)])
      else y1 == y
  {
    hide Apply;
  }

  lemma HandleSaves(y: System, d: nat, saved: bool)
    requires d < |y.deliveries|
    ensures
      var x := y.deliveries[d];
      var y1 := Step(y, SaveFailed(d, saved));
      if x.Failing? then
        y1 == y.(store := if saved && x.transfer < |y.store.transfers|
                          then Fail(y.store, x.transfer, x.reason) else y.store,
                 deliveries := y.deliveries[d := Finished])
      else y1 == y
  {
  }

  lemma HandleAcks(y: System, d: nat, acked: bool)
    requires d < |y.deliveries|
    ensures
      var x := y.deliveries[d];
      var y1 := Step(y, if acked then Ack(d) else CrashDelivery(d));
      if x.Acking? && acked then y1 == y.(queue := y.queue - {x.msg}, deliveries := y.deliveries[d := Finished])
      else if x.Finished? || !acked then y1 == y.(deliveries := y.deliveries[d := Finished])
      else y1 == y
  {
  }

  lemma FailedIsApplied(s: Store)
    ensures Apply(s, NoEffect) == s
    ensures forall t, r :: 0 <= t < |s.transfers| ==> Apply(s, MarkedFailed(t, r)) == Fail(s, t, r)
  {
  }

  /** What one uninterrupted delivery does: one change, and the message gone exactly when the handler
      returned normally and its acknowledgement arrived. */
  lemma HandleDoes(y: System, x: Delivered)
    ensures
      var acks := Deliverable(y, x.msg) && x.acked && HandlesWell(y.store, y.published[x.msg].payload, x);
      Handle(y, x) == y.(store := Apply(y.store, WholeEffect(y, x)),
                         queue := if acks then y.queue - {x.msg} else y.queue,
                         deliveries := y.deliveries + [Finished])
  {
    hide Step, Run, Apply;
    var d := |y.deliveries|;
    var y1 := Step(y, Deliver(x.msg));
    var y2 := Step(y1, LocateReceiver(d));
    var y3 := Step(y2, Settle(d, x.end));
    var y4 := Step(y3, SaveFailed(d, x.saved));
    RunFive(y, y1, y2, y3, y4, Deliver(x.msg), LocateReceiver(d), Settle(d, x.end), SaveFailed(d, x.saved),
            if x.acked then Ack(d) else CrashDelivery(d));
    HandleReads(y, x);
    HandleLocates(y1, d);
    HandleSettles(y2, d, x.end);
    HandleSaves(y3, d, x.saved);
    HandleAcks(y4, d, x.acked);
    FailedIsApplied(y.store);
  }

  /** A settlement that commits is what the whole delivery would do at that moment exactly when its
      transfer is still PENDING then: the session itself does not look. */
  lemma SettlesAsIfUninterruptedIff(y: System, d: nat, end: SessionEnd, x: Delivered)
    requires d < |y.deliveries| && EffectOf(y, Settle(d, end)).Settled? && x.end == Commits
    requires HandlerFaithful(y.published, y.deliveries[d])
    ensures y.deliveries[d].msg < |y.published| && y.published[y.deliveries[d].msg].payload.TransferInitiated?
    ensures
      HandleEffect(y.store, y.published[y.deliveries[d].msg].payload, x) == EffectOf(y, Settle(d, end))
      <==> y.store.transfers[y.deliveries[d].transfer].status == PENDING
  {
  }

  // ------------------------------------------------ whole recoveries

  /** How the await at a stage goes when the recovery ends in this way. */
  function AwaitAt(stage: Stage, end: RecoveryEnd): Await {
    if stage == CreditSession && end == SessionAborts then Fails
    else if stage == CreditCheck && end == Throws then Fails
    else Proceeds
  }

  /** What is left of a recovery from a stage on, when nothing comes in between. */
  function RecoveryScript(s: Store, k: nat, t: TransferId, stage: Stage, end: RecoveryEnd): seq<Action>
    decreases Rank(stage)
  {
    var await := AwaitAt(stage, end);
    match NextStage(s, t, stage, await)
    case None => [Recover(k, await)]
    case Some(next) => [Recover(k, await)] + RecoveryScript(s, k, t, next, end)
  }

  function RestEffect(s: Store, t: TransferId, stage: Stage, end: RecoveryEnd): (e: Effect)
    ensures Applicable(s, e)
    decreases Rank(stage)
  {
    var await := AwaitAt(stage, end);
    match NextStage(s, t, stage, await)
    case None => StageEffect(s, t, stage, await)
    case Some(next) => RestEffect(s, t, next, end)
  }

  /** Stage by stage an uninterrupted recovery makes the change that it makes as a whole. */
  lemma StagesMakeRecovery(s: Store, t: TransferId, end: RecoveryEnd)
    ensures RestEffect(s, t, CreditCheck, end) == RecoverEffect(s, t, end)
  {
    hide HasRecord;
    if t < |s.transfers| && end != Throws && !HasRecord(s.txns, t, TRANSFER_IN) && s.transfers[t].to < |s.wallets| {
      assert RestEffect(s, t, CreditCheck, end) == RestEffect(s, t, ReceiverCheck, end);
      assert RestEffect(s, t, ReceiverCheck, end) == RestEffect(s, t, DebitCheck, end);
      if HasRecord(s.txns, t, TRANSFER_OUT) {
        assert RestEffect(s, t, DebitCheck, end) == RestEffect(s, t, CreditSession, end);
      }
    }
  }

  predicate Sweeping(y: System, k: nat) {
    k < |y.sweeps| && y.sweeps[k].list != []
  }

  lemma RecoverOnce(y: System, k: nat, await: Await)
    requires Sweeping(y, k)
    ensures
      var x := y.sweeps[k];
      Step(y, Recover(k, await))
        == y.(store := Apply(y.store, StageEffect(y.store, x.list[0], x.stage, await)),
              sweeps := y.sweeps[k := AfterStage(y.store, x, await)])
  {
    hide Apply, StageEffect, AfterStage;
  }

  lemma {:induction false} ScriptRecovers(y: System, k: nat, end: RecoveryEnd)
    requires Sweeping(y, k)
    ensures
      var x := y.sweeps[k];
      Run(y, RecoveryScript(y.store, k, x.list[0], x.stage, end))
        == y.(store := Apply(y.store, RestEffect(y.store, x.list[0], x.stage, end)),
              sweeps := y.sweeps[k := Sweep(x.list[1..], CreditCheck)])
    decreases Rank(y.sweeps[k].stage)
  {
    hide Run, Step, StageEffect, NextStage;
    var x := y.sweeps[k];
    var t := x.list[0];
    var await := AwaitAt(x.stage, end);
    RecoverOnce(y, k, await);
    RunEmpty(y);
    RunSnoc(y, [], Recover(k, await));
    assert [] + [Recover(k, await)] == [Recover(k, await)];
    var y1 := Step(y, Recover(k, await));
    match NextStage(y.store, t, x.stage, await)
    case None =>
    case Some(next) =>
      assert y1.store == y.store && y1.sweeps[k] == Sweep(x.list, next);
      ScriptRecovers(y1, k, end);
      RunConcat(y, [Recover(k, await)], RecoveryScript(y.store, k, t, next, end));
      assert y.sweeps[k := Sweep(x.list, next)][k := Sweep(x.list[1..], CreditCheck)]
          == y.sweeps[k := Sweep(x.list[1..], CreditCheck)];
  }

  /** The whole recovery of the next transfer of sweep `k`. */
  function RecoverWhole(y: System, k: nat, end: RecoveryEnd): System {
    if Sweeping(y, k)
    then Run(y, RecoveryScript(y.store, k, y.sweeps[k].list[0], y.sweeps[k].stage, end)) else y
  }

  /** What an uninterrupted recovery does: one change, and the sweep goes on to its next transfer. */
  lemma RecoverDoes(y: System, k: nat, end: RecoveryEnd)
    requires Sweeping(y, k) && y.sweeps[k].stage == CreditCheck
    ensures
      var list := y.sweeps[k].list;
      RecoverWhole(y, k, end) == y.(store := Apply(y.store, RecoverEffect(y.store, list[0], end)),
                                    sweeps := y.sweeps[k := Sweep(list[1..], CreditCheck)])
  {
    hide Run, Apply, RecoveryScript, RestEffect, RecoverEffect;
    ScriptRecovers(y, k, end);
    StagesMakeRecovery(y.store, y.sweeps[k].list[0], end);
  }

  /** A recovery credit that commits is what the whole recovery would do at that moment exactly when a
      debit and still no credit is on record then: the session itself does not look. */
  lemma RecoversAsIfUninterruptedIff(y: System, k: nat)
    requires EffectOf(y, Recover(k, Proceeds)).Recovered?
    ensures
      var t := EffectOf(y, Recover(k, Proceeds)).transfer;
      RecoverEffect(y.store, t, RunsThrough) == EffectOf(y, Recover(k, Proceeds))
      <==> HasRecord(y.store.txns, t, TRANSFER_OUT) && !HasRecord(y.store.txns, t, TRANSFER_IN)
  {
    hide HasRecord;
  }

  // ------------------------------------------------------- block runs

  /** A run in which every delivery and every recovery is one uninterrupted block; everything else still
      interleaves freely between them, and sweeps may overlap and work on stale lists. */
  datatype Block = Other(action: Action) | Whole(delivered: Delivered) | Recovery(sweep: nat, end: RecoveryEnd)

  predicate OfHandlers(a: Action) {
    a.Deliver? || a.LocateReceiver? || a.Settle? || a.SaveFailed? || a.Ack? || a.CrashDelivery?
  }

  predicate OfWorkers(a: Action) {
    OfHandlers(a) || a.Recover?
  }

  predicate Uninterrupted(blocks: seq<Block>) {
    forall i :: 0 <= i < |blocks| && blocks[i].Other? ==> !OfWorkers(blocks[i].action)
  }

  /** No recovery is under way. */
  predicate AtRest(y: System) {
    forall k :: 0 <= k < |y.sweeps| ==> y.sweeps[k].stage == CreditCheck
  }

  function Advance(y: System, b: Block): System {
    match b
    case Other(a) => Step(y, a)
    case Whole(x) => Handle(y, x)
    case Recovery(k, end) => RecoverWhole(y, k, end)
  }

  function BlockEffect(y: System, b: Block): (e: Effect)
    ensures Applicable(y.store, e)
  {
    match b
    case Other(a) => EffectOf(y, a)
    case Whole(x) => WholeEffect(y, x)
    case Recovery(k, end) => if Sweeping(y, k) then RecoverEffect(y.store, y.sweeps[k].list[0], end) else NoEffect
  }

  function RunBlocks(y: System, blocks: seq<Block>): System {
    if blocks == [] then y else Advance(RunBlocks(y, blocks[..|blocks| - 1]), blocks[|blocks| - 1])
  }

  function BlockHistory(y: System, blocks: seq<Block>): (h: seq<Effect>)
    ensures |h| == |blocks|
  {
    if blocks == [] then [] else
      var n := |blocks| - 1;
      BlockHistory(y, blocks[..n]) + [BlockEffect(RunBlocks(y, blocks[..n]), blocks[n])]
  }

  lemma NothingToRecover(y: System, k: nat, end: RecoveryEnd)
    requires !Sweeping(y, k)
    ensures RecoverWhole(y, k, end) == y && Apply(y.store, NoEffect) == y.store
  {
  }

  lemma AdvanceApplies(y: System, b: Block)
    requires AtRest(y)
    ensures Advance(y, b).store == Apply(y.store, BlockEffect(y, b))
  {
    hide Step, Apply, EffectOf, Handle, RecoverWhole, RecoverEffect;
    match b
    case Other(a) => StepAppliesEffect(y, a);
    case Whole(x) => HandleDoes(y, x);
    case Recovery(k, end) =>
      if Sweeping(y, k) {
        RecoverDoes(y, k, end);
      } else {
        NothingToRecover(y, k, end);
      }
  }

  lemma StepKeepsRest(y: System, a: Action)
    requires AtRest(y) && !a.Recover?
    ensures AtRest(Step(y, a))
  {
    hide Apply, EffectOf, Poll, Stale;
  }

  lemma AdvanceKeepsRest(y: System, b: Block)
    requires AtRest(y) && (b.Other? ==> !OfWorkers(b.action))
    ensures AtRest(Advance(y, b))
  {
    hide Step, Apply, EffectOf, Handle, RecoverWhole, RecoverEffect;
    match b
    case Other(a) => StepKeepsRest(y, a);
    case Whole(x) => HandleDoes(y, x);
    case Recovery(k, end) =>
      if Sweeping(y, k) {
        RecoverDoes(y, k, end);
      } else {
        NothingToRecover(y, k, end);
      }
  }

  lemma BlockIsActions(y: System, b: Block) returns (actions: seq<Action>)
    ensures Run(y, actions) == Advance(y, b)
  {
    hide Step, Run;
    RunEmpty(y);
    match b
    case Other(a) =>
      actions := [a];
      RunSnoc(y, [], a);
      assert [] + [a] == [a];
    case Whole(x) => actions := Script(y, x);
    case Recovery(k, end) =>
      actions := if Sweeping(y, k)
                 then RecoveryScript(y.store, k, y.sweeps[k].list[0], y.sweeps[k].stage, end) else [];
  }

  /** Block runs are runs. */
  lemma {:induction false} BlocksAreActions(y: System, blocks: seq<Block>)
    ensures exists actions :: Run(y, actions) == RunBlocks(y, blocks)
  {
    hide Step, Script, RecoveryScript;
    if blocks == [] {
      assert Run(y, []) == RunBlocks(y, blocks);
    } else {
      var n := |blocks| - 1;
      BlocksAreActions(y, blocks[..n]);
      var actions :| Run(y, actions) == RunBlocks(y, blocks[..n]);
      var before := Run(y, actions);
      var more := BlockIsActions(before, blocks[n]);
      RunConcat(y, actions, more);
      assert Run(y, actions + more) == RunBlocks(y, blocks);
    }
  }

  // ---------------------------------------------- settled at most once

  /** A debit-only transfer: debited, credited at most once, and credited exactly when COMPLETED. */
  predicate DebitOnly(s: Store, t: TransferId) {
    && t < |s.transfers|
    && 1 <= Count(s.txns, t, TRANSFER_OUT)
    && Count(s.txns, t, TRANSFER_IN) <= 1
    && (s.transfers[t].status == COMPLETED <==> Count(s.txns, t, TRANSFER_IN) == 1)
  }

  /** The change settles PENDING transfers only, recovers only debited and uncredited ones, completes only
      credited ones, and fails only uncredited or PENDING ones. */
  predicate Careful(s: Store, e: Effect) {
    && Backed(s, e)
    && (e.Recovered? ==>
          HasRecord(s.txns, e.transfer, TRANSFER_OUT) && !HasRecord(s.txns, e.transfer, TRANSFER_IN))
    && (e.Settled? ==> e.transfer < |s.transfers| && s.transfers[e.transfer].status == PENDING)
    && (e.MarkedFailed? ==>
          e.transfer < |s.transfers|
          && (s.transfers[e.transfer].status == PENDING || !HasRecord(s.txns, e.transfer, TRANSFER_IN)))
  }

  lemma BlocksAreCareful(y: System, b: Block)
    requires b.Other? ==> !OfWorkers(b.action)
    ensures Careful(y.store, BlockEffect(y, b))
  {
    hide HasRecord, FindKey;
  }

  lemma ApplyKeepsDebitOnly(s: Store, e: Effect, t: TransferId)
    requires Applicable(s, e) && Careful(s, e) && DebitOnly(s, t)
    ensures DebitOnly(Apply(s, e), t)
  {
    hide Count, HasRecord, FindKey;
    ApplyCounts(s, e, t);
    CountFindsRecord(s.txns, t, TRANSFER_IN);
  }

  lemma {:induction false} BlocksKeepRest(y: System, blocks: seq<Block>)
    requires Uninterrupted(blocks) && AtRest(y)
    ensures AtRest(RunBlocks(y, blocks))
  {
    hide Advance, AtRest;
    if blocks != [] {
      var n := |blocks| - 1;
      BlocksKeepRest(y, blocks[..n]);
      AdvanceKeepsRest(RunBlocks(y, blocks[..n]), blocks[n]);
    }
  }

  /** Over any mix of uninterrupted deliveries and uninterrupted recoveries of stale, overlapping sweeps, a
      debit-only transfer gets at most one TRANSFER_IN record and is COMPLETED exactly when it has it. */
  lemma {:induction false} DebitOnlySettlesOnce(y: System, blocks: seq<Block>, t: TransferId)
    requires Uninterrupted(blocks) && AtRest(y) && DebitOnly(y.store, t)
    ensures DebitOnly(RunBlocks(y, blocks).store, t)
  {
    hide Advance, BlockEffect, Apply, DebitOnly, Careful, AtRest;
    if blocks != [] {
      var n := |blocks| - 1;
      var before := RunBlocks(y, blocks[..n]);
      DebitOnlySettlesOnce(y, blocks[..n], t);
      BlocksKeepRest(y, blocks[..n]);
      AdvanceApplies(before, blocks[n]);
      BlocksAreCareful(before, blocks[n]);
      ApplyKeepsDebitOnly(before.store, BlockEffect(before, blocks[n]), t);
    }
  }
}
