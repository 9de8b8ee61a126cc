/** When a request or a delivery that has read its wallets commits, however much runs in between. */
module Requests {
  import opened Types
  import opened Stores
  import opened Platform
  import opened Histories
  import opened Evolution
  import opened Origins

  /** No version-checked change to the wallet commits in this history. */
  predicate Undisturbed(h: seq<Effect>, w: WalletId) {
    forall i :: 0 <= i < |h| ==> Weight(Bumps(w), h[i]) == 0
  }

  /** A snapshot still matches exactly when its wallet was left undisturbed, and the balance has then
      not fallen below the one read. */
  lemma MatchMeansUndisturbed(x: Execution, i: nat, j: nat, w: WalletId)
    requires i <= j <= |x.actions| && w < |x.states[i].store.wallets|
    ensures w < |x.states[j].store.wallets|
    ensures Matches(x.states[j].store, Read(x.states[i].store, w)) <==> Undisturbed(x.Effects()[i..j], w)
    ensures Undisturbed(x.Effects()[i..j], w) ==>
              x.states[i].store.wallets[w].balance <= x.states[j].store.wallets[w].balance
  {
    hide Step, EffectOf, Apply, Run, History, Weight;
    ExecutionIsRun(x, i, j);
    VersionCountsCommits(x.states[i], x.actions[i..j], w);
    SumNonNegative(Bumps(w), x.Effects()[i..j]);
    RunIsLater(x.states[i], x.actions[i..j]);
    assert WalletLater(x.states[i].store.wallets[w], x.states[j].store.wallets[w]);
  }

  lemma ReadsChangeNothing(x: Execution, i: nat)
    requires i < |x.actions|
    requires x.actions[i].ReadForDeposit? || x.actions[i].ReadForWithdrawal?
    ensures x.states[i + 1].store == x.states[i].store
  {
    hide Apply, Poll;
    assert x.states[i + 1] == Step(x.states[i], x.actions[i]);
  }

  /** Request `c`, started by the action at `i`, is still between its reads and its session at `j`. */
  predicate Waiting(x: Execution, i: nat, j: nat, call: Call) {
    i < j <= |x.actions| && |x.states[i].calls| < |x.states[j].calls| && x.states[j].calls[|x.states[i].calls|] == call
  }

  /** A deposit commits if and only if its session goes through and no version-checked change to its
      wallet has committed since it was read. */
  lemma DepositCommitsIff(x: Execution, i: nat, j: nat, w: WalletId, amount: Amount, end: SessionEnd)
    requires i < |x.actions| && x.actions[i] == ReadForDeposit(w, amount) && w < |x.states[i].store.wallets|
    requires Waiting(x, i, j, StartDeposit(x.states[i].store, w, amount))
    ensures
      (EffectOf(x.states[j], EndCall(|x.states[i].calls|, end)) == Deposited(w, amount))
      <==> (end == Commits && Undisturbed(x.Effects()[i + 1..j], w))
  {
    hide Step, Undisturbed;
    ReadsChangeNothing(x, i);
    MatchMeansUndisturbed(x, i + 1, j, w);
  }

  /** A withdrawal that passed its balance check at the read commits under the same condition: the
      second balance check never refuses it. */
  lemma WithdrawalCommitsIff(x: Execution, i: nat, j: nat, w: WalletId, amount: Amount, end: SessionEnd)
    requires i < |x.actions| && x.actions[i] == ReadForWithdrawal(w, amount) && w < |x.states[i].store.wallets|
    requires amount <= x.states[i].store.wallets[w].balance
    requires Waiting(x, i, j, StartWithdrawal(x.states[i].store, w, amount))
    ensures
      (EffectOf(x.states[j], EndCall(|x.states[i].calls|, end)) == Withdrawn(w, amount))
      <==> (end == Commits && Undisturbed(x.Effects()[i + 1..j], w))
  {
    hide Step, Undisturbed;
    ReadsChangeNothing(x, i);
    MatchMeansUndisturbed(x, i + 1, j, w);
  }

  /** A transfer that reached its session, having read its two wallets at moments of their own, commits
      if and only if the session goes through, each wallet was left undisturbed since its read, and
      nobody has stored its key meanwhile. */
  lemma TransferCommitsIff(x: Execution, c: nat, j: nat, end: SessionEnd) returns (i1: nat, i2: nat)
    requires x.First().calls == [] && j <= |x.actions|
    requires c < |x.states[j].calls| && x.states[j].calls[c].Transferring?
    ensures i1 < j && SenderFetchedAt(x, c, i1) && i2 < j && ReceiverFetchedAt(x, c, i2)
    ensures
      var call := x.states[j].calls[c];
      (EffectOf(x.states[j], EndCall(c, end))
         == Transferred(call.from.id, call.to.id, call.amount, call.key, x.states[j].now))
      <==> (end == Commits && !KeyTaken(x.states[j].store, call.key)
            && Undisturbed(x.Effects()[i1 + 1..j], call.from.id) && Undisturbed(x.Effects()[i2 + 1..j], call.to.id))
  {
    hide Step, Undisturbed, FindKey;
    var call := x.states[j].calls[c];
    i1 := SenderWasFetched(x, c, j, call.from);
    i2 := ReceiverWasFetched(x, c, j, call.to);
    MatchMeansUndisturbed(x, i1 + 1, j, call.from.id);
    MatchMeansUndisturbed(x, i2 + 1, j, call.to.id);
    CallsAreSane(x, j);
    assert Sane(call);
  }

  /** A delivery settles its transfer if and only if its session goes through and the receiver's wallet
      was left undisturbed since its read; what happened to the transfer since its own, earlier
      read does not matter. */
  lemma SettlementCommitsIff(x: Execution, d: nat, j: nat, end: SessionEnd) returns (i1: nat, i2: nat)
    requires x.First().deliveries == [] && j <= |x.actions|
    requires d < |x.states[j].deliveries| && x.states[j].deliveries[d].Settling?
    ensures i1 < i2 < j && TransferReadAt(x, d, i1) && ReceiverReadAt(x, d, i2)
    ensures
      var h := x.states[j].deliveries[d];
      (EffectOf(x.states[j], Settle(d, end)) == Settled(h.transfer, h.to.id, h.amount))
      <==> (end == Commits && Undisturbed(x.Effects()[i2 + 1..j], h.to.id))
  {
    hide Step, Undisturbed, Run, History;
    i1, i2 := HandlerReads(x, d, j);
    MatchMeansUndisturbed(x, i2 + 1, j, x.states[j].deliveries[d].to.id);
    ExecutionIsRun(x, i1, j);
    RunIsLater(x.states[i1], x.actions[i1..j]);
  }
}
