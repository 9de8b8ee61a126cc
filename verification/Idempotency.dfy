/** Retried transfer requests. */
module Idempotency {
  import opened Types
  import opened Stores
  import opened Platform
  import opened Evolution

  predicate KeysUnique(transfers: seq<Transfer>) {
    forall i, j :: 0 <= i < j < |transfers| && transfers[i].key.Some? ==> transfers[i].key != transfers[j].key
  }

  /** A reply names a transfer stored under the request's key, and a request that collided with a stored
      key will find it. */
  predicate ReplyTrue(transfers: seq<Transfer>, c: Call) {
    && (c.Replied? ==> c.transfer < |transfers| && (c.key.Some? ==> transfers[c.transfer].key == c.key))
    && (c.Duplicate? ==> exists t :: 0 <= t < |transfers| && transfers[t].key == Some(c.taken))
  }

  predicate RepliesTrue(y: System) {
    forall c :: 0 <= c < |y.calls| ==> ReplyTrue(y.store.transfers, y.calls[c])
  }

  lemma ApplyKeepsKeysUnique(s: Store, e: Effect)
    requires Applicable(s, e) && KeysUnique(s.transfers)
    ensures KeysUnique(Apply(s, e).transfers)
  {
    hide HasRecord, FindKey;
  }

  /** The reply of a transfer request is a transfer stored under its key. */
  lemma EndedCallReplies(s: Store, c: Call, now: Time, end: SessionEnd)
    requires ReplyTrue(s.transfers, c)
    ensures ReplyTrue(Apply(s, CallEffect(s, c, now, end)).transfers, AfterCall(s, c, end))
  {
    hide FindKey;
  }

  lemma StartedCallReplies(s: Store, from: WalletId, to: WalletId, amount: Amount, key: Option<Key>)
    ensures ReplyTrue(s.transfers, StartTransfer(s, from, to, amount, key))
  {
    hide FindKey;
  }

  lemma LookedUpCallReplies(s: Store, c: Call)
    requires ReplyTrue(s.transfers, c)
    ensures ReplyTrue(s.transfers, AfterLookUp(s, c))
  {
    hide FindKey;
  }

  lemma ReplyStaysTrue(ts: seq<Transfer>, ts': seq<Transfer>, c: Call)
    requires TransfersLater(ts, ts') && ReplyTrue(ts, c)
    ensures ReplyTrue(ts', c)
  {
    if c.Replied? {
      assert TransferLater(ts[c.transfer], ts'[c.transfer]);
    } else if c.Duplicate? {
      var t :| 0 <= t < |ts| && ts[t].key == Some(c.taken);
      assert TransferLater(ts[t], ts'[t]);
    }
  }

  /** Where the calls of the next state come from. */
  lemma StepCalls(y: System, a: Action, c: nat)
    requires c < |Step(y, a).calls|
    ensures
      || (c < |y.calls| && Step(y, a).calls[c] == y.calls[c])
      || (a.EndCall? && c == a.call < |y.calls| && Step(y, a).calls[c] == AfterCall(y.store, y.calls[c], a.end)
          && EffectOf(y, a) == CallEffect(y.store, y.calls[c], y.now, a.end))
      || (a.ReadForTransfer? && Step(y, a).store == y.store
          && Step(y, a).calls[c] == StartTransfer(y.store, a.from, a.to, a.amount, a.key))
      || (a.LookUpDuplicate? && c == a.call < |y.calls| && Step(y, a).store == y.store
          && Step(y, a).calls[c] == AfterLookUp(y.store, y.calls[c]))
      || (!Step(y, a).calls[c].Replied? && !Step(y, a).calls[c].Duplicate?)
  {
    hide Apply, Poll, AfterCall, StartTransfer, CallEffect, AfterLookUp;
  }

  lemma NoReplyIsTrue(ts: seq<Transfer>, c: Call)
    ensures !c.Replied? && !c.Duplicate? ==> ReplyTrue(ts, c)
  {
  }

  lemma LaterTransfers(s: Store, s': Store)
    requires Later(s, s')
    ensures TransfersLater(s.transfers, s'.transfers)
  {
  }

  lemma StepKeepsRepliesTrue(y: System, a: Action)
    requires RepliesTrue(y)
    ensures RepliesTrue(Step(y, a))
  {
    hide Step, EffectOf, Apply, AfterCall, StartTransfer, CallEffect, AfterLookUp, Later, ReplyTrue;
    var y' := Step(y, a);
    StepAppliesEffect(y, a);
    ApplyIsLater(y.store, EffectOf(y, a));
    assert TransfersLater(y.store.transfers, y'.store.transfers) by { LaterTransfers(y.store, y'.store); }
    forall c | 0 <= c < |y'.calls| ensures ReplyTrue(y'.store.transfers, y'.calls[c]) {
      StepCalls(y, a, c);
      if c < |y.calls| && y'.calls[c] == y.calls[c] {
        ReplyStaysTrue(y.store.transfers, y'.store.transfers, y.calls[c]);
      } else if a.EndCall? && c == a.call < |y.calls| {
        EndedCallReplies(y.store, y.calls[c], y.now, a.end);
      } else if a.LookUpDuplicate? && c == a.call < |y.calls| {
        LookedUpCallReplies(y.store, y.calls[c]);
      } else if a.ReadForTransfer? {
        StartedCallReplies(y.store, a.from, a.to, a.amount, a.key);
      }
      NoReplyIsTrue(y'.store.transfers, y'.calls[c]);
    }
  }

  lemma {:induction false} RunKeepsKeys(y: System, actions: seq<Action>)
    requires KeysUnique(y.store.transfers) && RepliesTrue(y)
    ensures KeysUnique(Run(y, actions).store.transfers) && RepliesTrue(Run(y, actions))
  {
    hide Step, EffectOf, Apply, RepliesTrue, KeysUnique;
    if actions != [] {
      var n := |actions| - 1;
      var before := Run(y, actions[..n]);
      RunKeepsKeys(y, actions[..n]);
      StepKeepsRepliesTrue(before, actions[n]);
      StepAppliesEffect(before, actions[n]);
      ApplyKeepsKeysUnique(before.store, EffectOf(before, actions[n]));
    }
  }

  /** Concurrent retries agree: any two requests with one key that return normally return the same
      transfer, and it is the only one stored under that key. */
  lemma RetriesAgree(x: Execution, s: Store, now: Time, i: nat, j: nat)
    requires x.First() == Boot(s, now) && KeysUnique(s.transfers)
    requires i < |x.Last().calls| && x.Last().calls[i].Replied? && x.Last().calls[i].key.Some?
    requires j < |x.Last().calls| && x.Last().calls[j].Replied? && x.Last().calls[j].key == x.Last().calls[i].key
    ensures
      var t := x.Last().calls[i].transfer;
      && x.Last().calls[j].transfer == t
      && t < |x.Last().store.transfers|
      && forall u :: 0 <= u < |x.Last().store.transfers| ==>
           (x.Last().store.transfers[u].key == x.Last().calls[i].key <==> u == t)
  {
    hide Step, Run;
    WholeExecutionIsRun(x);
    RunKeepsKeys(Boot(s, now), x.actions);
    var y := x.Last();
    assert ReplyTrue(y.store.transfers, y.calls[i]);
    assert ReplyTrue(y.store.transfers, y.calls[j]);
  }

  lemma LookUpReplies(y: System, i: nat)
    requires i < |y.calls| && y.calls[i].Duplicate?
    ensures Step(y, LookUpDuplicate(i)) == y.(calls := y.calls[i := AfterLookUp(y.store, y.calls[i])])
  {
    hide FindKey;
  }

  /** A request whose session collided with its key always gets the stored transfer when it looks. */
  lemma DuplicateFindsTransfer(x: Execution, s: Store, now: Time, i: nat)
    requires x.First() == Boot(s, now) && KeysUnique(s.transfers)
    requires i < |x.Last().calls| && x.Last().calls[i].Duplicate?
    ensures
      var y := Step(x.Last(), LookUpDuplicate(i));
      && i < |y.calls| && y.calls[i].Replied? && y.calls[i].key == Some(x.Last().calls[i].taken)
      && y.calls[i].transfer < |y.store.transfers|
      && y.store.transfers[y.calls[i].transfer].key == Some(x.Last().calls[i].taken)
  {
    hide Step, Run, FindKey;
    WholeExecutionIsRun(x);
    RunKeepsKeys(Boot(s, now), x.actions);
    assert ReplyTrue(x.Last().store.transfers, x.Last().calls[i]);
    LookUpReplies(x.Last(), i);
  }

  /** The session of a transfer request changes the store exactly when it replies with a transfer
      that did not exist; a lost version, a duplicate key or an abort leaves all of it unchanged. */
  lemma RefusedTransferChangesNothing(y: System, i: nat, end: SessionEnd)
    requires i < |y.calls| && y.calls[i].Transferring?
    ensures
      var y' := Step(y, EndCall(i, end));
      && (y'.store != y.store <==> y'.calls[i] == Replied(y.calls[i].key, |y.store.transfers|))
      && (y'.store == y.store || EffectOf(y, EndCall(i, end)).Transferred?)
      && (y'.store != y.store ==> |y'.store.transfers| == |y.store.transfers| + 1
                                  && y'.store.transfers[..|y.store.transfers|] == y.store.transfers)
  {
    hide FindKey, HasRecord;
  }

  // --------------------------------------------------- commits per key

  /** Committed transfers under a key. */
  function KeyCommits(h: seq<Effect>, key: Key): nat {
    if h == [] then 0 else
      var e := h[|h| - 1];
      KeyCommits(h[..|h| - 1], key) + if e.Transferred? && e.key == Some(key) then 1 else 0
  }

  lemma KeyCommitsAppend(h: seq<Effect>, e: Effect, key: Key)
    ensures KeyCommits(h + [e], key) == KeyCommits(h, key) + if e.Transferred? && e.key == Some(key) then 1 else 0
  {
    assert (h + [e])[..|h|] == h;
  }

  /** Some transfer is stored under the key. */
  predicate KeyStored(s: Store, key: Key) {
    exists t :: 0 <= t < |s.transfers| && s.transfers[t].key == Some(key)
  }

  function Stored(s: Store, key: Key): nat {
    if KeyStored(s, key) then 1 else 0
  }

  lemma ApplyStores(s: Store, e: Effect, key: Key)
    requires Applicable(s, e)
    ensures Stored(Apply(s, e), key) == Stored(s, key) + if e.Transferred? && e.key == Some(key) then 1 else 0
  {
    hide HasRecord, FindKey;
    var s' := Apply(s, e);
    ApplyIsLater(s, e);
    var r := FindKey(s.transfers, key);
    var r' := FindKey(s'.transfers, key);
    if r.Some? {
      assert TransferLater(s.transfers[r.value], s'.transfers[r.value]);
    }
    if r'.Some? && r'.value < |s.transfers| {
      assert TransferLater(s.transfers[r'.value], s'.transfers[r'.value]);
    }
    if e.Transferred? && e.key == Some(key) {
      assert s'.transfers[|s.transfers|].key == Some(key);
    }
  }

  lemma NoCommits(key: Key)
    ensures KeyCommits([], key) == 0
  {
  }

  lemma {:induction false} RunStores(y: System, actions: seq<Action>, key: Key)
    ensures KeyCommits(History(y, actions), key) == Stored(Run(y, actions).store, key) - Stored(y.store, key)
  {
    hide Step, EffectOf, Apply, Stored, KeyCommits;
    if actions == [] {
      NoCommits(key);
    } else {
      var n := |actions| - 1;
      var before := Run(y, actions[..n]);
      RunStores(y, actions[..n], key);
      StepAppliesEffect(before, actions[n]);
      ApplyStores(before.store, EffectOf(before, actions[n]), key);
      KeyCommitsAppend(History(y, actions[..n]), EffectOf(before, actions[n]), key);
    }
  }

  /** Over any execution and any number of concurrent requests with one key, exactly one transfer
      commits if the key is stored at the end and was not at the start, and none otherwise. */
  lemma OneCommitPerKey(x: Execution, key: Key)
    ensures KeyCommits(x.Effects(), key)
         == if KeyStored(x.Last().store, key) && !KeyStored(x.First().store, key) then 1 else 0
  {
    hide Step, EffectOf, Run, History, KeyCommits, KeyStored;
    WholeExecutionIsRun(x);
    RunStores(x.First(), x.actions, key);
  }
}
