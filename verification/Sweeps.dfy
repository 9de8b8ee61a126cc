/** What a recovery sweep achieves for the transfers on its list. */
module Sweeps {
  import opened Types
  import opened Stores
  import opened Platform
  import opened Evolution
  import opened AtomicDelivery

  // ------------------------------------------ uninterrupted sweeps

  /** The sweep's loop, run without interruption; `ends(i)` says how its i-th recovery goes. */
  function Swept(s: Store, stale: seq<TransferId>, ends: nat -> RecoveryEnd): Store {
    if stale == [] then s else
      var n := |stale| - 1;
      var before := Swept(s, stale[..n], ends);
      Apply(before, RecoverEffect(before, stale[n], ends(n)))
  }

  lemma NothingSwept(s: Store, ends: nat -> RecoveryEnd)
    ensures Swept(s, [], ends) == s
  {
  }

  lemma SweptNext(s: Store, stale: seq<TransferId>, i: nat, ends: nat -> RecoveryEnd)
    requires i < |stale|
    ensures
      var before := Swept(s, stale[..i], ends);
      Swept(s, stale[..i + 1], ends) == Apply(before, RecoverEffect(before, stale[i], ends(i)))
  {
    hide Apply, RecoverEffect;
    assert stale[..i + 1][..i] == stale[..i];
  }

  /** A recovery that does not throw resolves its transfer and leaves every other one as it was. */
  lemma RecoveryResolves(s: Store, t: TransferId, end: RecoveryEnd)
    ensures
      var s' := Apply(s, RecoverEffect(s, t, end));
      && |s'.transfers| == |s.transfers|
      && (forall u :: 0 <= u < |s.transfers| && u != t ==> s'.transfers[u] == s.transfers[u])
      && (t < |s.transfers| && end != Throws ==> s'.transfers[t].status in {COMPLETED, FAILED})
      && (end == Throws ==> s' == s)
  {
    hide HasRecord;
  }

  /** After the loop a transfer is PENDING exactly when it was PENDING before and every recovery the
      sweep tried on it threw; transfers outside the list are untouched. */
  lemma {:induction false} SweepResolvesList(s: Store, stale: seq<TransferId>, ends: nat -> RecoveryEnd)
    ensures
      var s' := Swept(s, stale, ends);
      && |s'.transfers| == |s.transfers|
      && (forall u :: 0 <= u < |s.transfers| && u !in stale ==> s'.transfers[u] == s.transfers[u])
      && (forall u :: 0 <= u < |s.transfers| ==>
            (s'.transfers[u].status == PENDING
             <==> s.transfers[u].status == PENDING
                  && forall i :: 0 <= i < |stale| && stale[i] == u ==> ends(i) == Throws))
  {
    hide Apply, RecoverEffect;
    if stale != [] {
      var n := |stale| - 1;
      var before := Swept(s, stale[..n], ends);
      SweepResolvesList(s, stale[..n], ends);
      RecoveryResolves(before, stale[n], ends(n));
      ApplyIsLater(before, RecoverEffect(before, stale[n], ends(n)));
      assert forall i :: 0 <= i < n ==> stale[..n][i] == stale[i];
      assert stale == stale[..n] + [stale[n]];
      if stale[n] < |s.transfers| {
        assert TransferLater(before.transfers[stale[n]], Swept(s, stale, ends).transfers[stale[n]]);
      }
    }
  }

  /** The first `n` recoveries of sweep `k`, one after the other. */
  function SweepRun(y: System, k: nat, n: nat, ends: nat -> RecoveryEnd): System {
    if n == 0 then y else RecoverWhole(SweepRun(y, k, n - 1, ends), k, ends(n - 1))
  }

  /** The loop is a run of the state machine. */
  lemma {:induction false} SweptIsRun(y: System, k: nat, n: nat, ends: nat -> RecoveryEnd)
    requires k < |y.sweeps| && y.sweeps[k].stage == CreditCheck && n <= |y.sweeps[k].list|
    ensures
      var list := y.sweeps[k].list;
      SweepRun(y, k, n, ends) == y.(store := Swept(y.store, list[..n], ends),
                                    sweeps := y.sweeps[k := Sweep(list[n..], CreditCheck)])
  {
    hide RecoverWhole, RecoverEffect, Apply, Swept;
    var list := y.sweeps[k].list;
    if n == 0 {
      NothingSwept(y.store, ends);
      assert list[..0] == [] && list[0..] == list;
    } else {
      SweptIsRun(y, k, n - 1, ends);
      RecoverDoes(SweepRun(y, k, n - 1, ends), k, ends(n - 1));
      SweptNext(y.store, list, n - 1, ends);
      assert list[n - 1..][0] == list[n - 1] && list[n - 1..][1..] == list[n..];
    }
  }

  // -------------------------------------------- interleaved sweeps

  predicate Done(s: Store, t: TransferId) {
    t < |s.transfers| && s.transfers[t].status in {COMPLETED, FAILED}
  }

  /** Everything on the list is still to be looked at or already resolved. */
  predicate Progress(y: System, k: nat, list: seq<TransferId>) {
    k < |y.sweeps| && forall t :: t in list && t < |y.store.transfers| && t !in y.sweeps[k].list ==> Done(y.store, t)
  }

  /** In this part of the execution no await of sweep `k` fails but in a session. */
  predicate NeverThrows(x: Execution, i: nat, j: nat, k: nat)
    requires i <= j <= |x.actions|
  {
    forall n :: i <= n < j && x.actions[n] == Recover(k, Fails) && k < |x.states[n].sweeps| ==>
      x.states[n].sweeps[k].stage == CreditSession
  }

  lemma QueriesStale(y: System, timeout: nat)
    ensures |Step(y, QueryStale(timeout)).sweeps| == |y.sweeps| + 1
    ensures Step(y, QueryStale(timeout)).sweeps[|y.sweeps|]
         == Sweep(Stale(y.store.transfers, y.now - timeout), CreditCheck)
    ensures Step(y, QueryStale(timeout)).store == y.store
  {
    hide Stale;
  }

  lemma SweepStep(y: System, a: Action, k: nat)
    requires k < |y.sweeps|
    ensures k < |Step(y, a).sweeps|
    ensures a.Recover? && a.sweep == k && y.sweeps[k].list != [] ==>
              Step(y, a).sweeps[k] == AfterStage(y.store, y.sweeps[k], a.await)
              && EffectOf(y, a) == StageEffect(y.store, y.sweeps[k].list[0], y.sweeps[k].stage, a.await)
    ensures !(a.Recover? && a.sweep == k) || y.sweeps[k].list == [] ==> Step(y, a).sweeps[k] == y.sweeps[k]
  {
    hide Apply, Poll, AfterStage, StageEffect;
  }

  lemma DoneStays(s: Store, s': Store, t: TransferId)
    requires Later(s, s') && Done(s, t)
    ensures Done(s', t)
  {
    assert TransferLater(s.transfers[t], s'.transfers[t]);
  }

  /** A recovery that ends without an error outside its session has resolved its transfer. */
  lemma StageResolves(s: Store, x: Sweep, await: Await)
    requires x.list != [] && x.list[0] < |s.transfers| && (await == Fails ==> x.stage == CreditSession)
    ensures
      var x' := AfterStage(s, x, await);
      x'.list == x.list
      || (x'.list == x.list[1..] && Done(Apply(s, StageEffect(s, x.list[0], x.stage, await)), x.list[0]))
  {
    hide HasRecord;
  }

  lemma AbsentIsSkipped(s: Store, x: Sweep, await: Await)
    requires x.list != [] && |s.transfers| <= x.list[0]
    ensures AfterStage(s, x, await).list == x.list[1..]
  {
  }

  lemma MoreTransfers(s: Store, s': Store)
    requires Later(s, s')
    ensures |s.transfers| <= |s'.transfers|
  {
  }

  lemma StepProgress(y: System, a: Action, k: nat, list: seq<TransferId>, size: nat)
    requires Progress(y, k, list) && size <= |y.store.transfers| && forall t :: t in list ==> t < size
    requires a == Recover(k, Fails) ==> y.sweeps[k].stage == CreditSession
    ensures Progress(Step(y, a), k, list) && size <= |Step(y, a).store.transfers|
  {
    hide Step, EffectOf, Apply, StageEffect, AfterStage, Later, Done;
    var y' := Step(y, a);
    StepAppliesEffect(y, a);
    ApplyIsLater(y.store, EffectOf(y, a));
    MoreTransfers(y.store, y'.store);
    SweepStep(y, a, k);
    forall t | t in list && t < |y'.store.transfers| && t !in y'.sweeps[k].list ensures Done(y'.store, t) {
      if t !in y.sweeps[k].list {
        DoneStays(y.store, y'.store, t);
      } else {
        var rest := y.sweeps[k].list;
        assert rest == [rest[0]] + rest[1..];
        if rest[0] < |y.store.transfers| {
          StageResolves(y.store, y.sweeps[k], a.await);
        } else {
          AbsentIsSkipped(y.store, y.sweeps[k], a.await);
        }
        assert t == rest[0];
      }
    }
  }

  lemma ProgressHasSweep(y: System, k: nat, list: seq<TransferId>)
    requires Progress(y, k, list)
    ensures k < |y.sweeps|
  {
  }

  lemma {:induction false} RunProgress(x: Execution, i: nat, j: nat, k: nat, list: seq<TransferId>, size: nat)
    requires i <= j <= |x.actions| && NeverThrows(x, i, j, k)
    requires Progress(x.states[i], k, list) && size <= |x.states[i].store.transfers|
    requires forall t :: t in list ==> t < size
    ensures Progress(x.states[j], k, list) && size <= |x.states[j].store.transfers|
    decreases j
  {
    hide Step, Progress;
    if i < j {
      RunProgress(x, i, j - 1, k, list, size);
      assert x.states[j] == Step(x.states[j - 1], x.actions[j - 1]);
      ProgressHasSweep(x.states[j - 1], k, list);
      StepProgress(x.states[j - 1], x.actions[j - 1], k, list, size);
    }
  }

  lemma MoreTransfersOfRun(x: Execution, i: nat, j: nat)
    requires i <= j <= |x.actions|
    ensures |x.states[i].store.transfers| <= |x.states[j].store.transfers|
  {
    hide Run, History, Step;
    ExecutionIsRun(x, i, j);
    RunIsLater(x.states[i], x.actions[i..j]);
  }

  /** Also when anything runs between the awaits of its recoveries and its list goes stale: once a sweep in
      which nothing fails but sessions has worked off its list, every transfer that was PENDING and
      older than the cutoff at its query is COMPLETED or FAILED. */
  lemma InterleavedSweepClearsBacklog(x: Execution, i: nat, j: nat, timeout: nat, t: TransferId)
    requires i < j <= |x.actions| && x.actions[i] == QueryStale(timeout)
    requires NeverThrows(x, i + 1, j, |x.states[i].sweeps|)
    requires |x.states[i].sweeps| < |x.states[j].sweeps| && x.states[j].sweeps[|x.states[i].sweeps|].list == []
    requires t < |x.states[i].store.transfers| && x.states[i].store.transfers[t].status == PENDING
    requires x.states[i].store.transfers[t].createdAt < x.states[i].now - timeout
    ensures Done(x.states[j].store, t)
  {
    hide Run, History, Stale, Step;
    var y := x.states[i];
    var list := Stale(y.store.transfers, y.now - timeout);
    assert x.states[i + 1] == Step(y, QueryStale(timeout));
    QueriesStale(y, timeout);
    RunProgress(x, i + 1, j, |y.sweeps|, list, |y.store.transfers|);
    assert t in list;
    MoreTransfersOfRun(x, i, j);
  }

  lemma CreatedNow(y: System, a: Action)
    requires EffectOf(y, a).Transferred?
    ensures
      var s := Step(y, a).store;
      |s.transfers| == |y.store.transfers| + 1 && s.transfers[|y.store.transfers|].createdAt == y.now
  {
    hide FindKey, HasRecord;
    StepAppliesEffect(y, a);
    assert a.EndCall?;
  }

  /** A sweep waits: a transfer that commits at `i` enters the list of a sweep that queries at `j` only
      while PENDING and only when more than the timeout has passed since. */
  lemma SweepWaits(x: Execution, i: nat, j: nat, timeout: nat)
    requires i < j < |x.actions| && x.Effects()[i].Transferred? && x.actions[j] == QueryStale(timeout)
    requires |x.states[j].sweeps| < |x.states[j + 1].sweeps|
    requires |x.states[i].store.transfers| in x.states[j + 1].sweeps[|x.states[j].sweeps|].list
    ensures
      var t := |x.states[i].store.transfers|;
      && x.states[i].now + timeout < x.states[j].now
      && t < |x.states[j].store.transfers| && x.states[j].store.transfers[t].status == PENDING
  {
    var t := |x.states[i].store.transfers|;
    CreatedNow(x.states[i], x.actions[i]);
    assert x.states[j + 1] == Step(x.states[j], x.actions[j]);
    QueriesStale(x.states[j], timeout);
    assert x.states[i + 1] == Step(x.states[i], x.actions[i]);
    hide Step, EffectOf, Apply, Run, Stale;
    ExecutionIsRun(x, i + 1, j);
    RunIsLater(x.states[i + 1], x.actions[i + 1..j]);
    assert TransferLater(x.states[i + 1].store.transfers[t], x.states[j].store.transfers[t]);
  }
}
