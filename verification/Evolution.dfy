/** How documents change over a run: what only ever grows, what never changes, and what a wallet's
    version says about its balance although the recovery sweep credits without touching it. */
module Evolution {
  import opened Types
  import opened Stores
  import opened Platform
  import opened Histories

  // ----------------------------------------------------- what only grows

  predicate WalletLater(w: Wallet, w': Wallet) {
    w.version < w'.version || (w.version == w'.version && w.balance <= w'.balance)
  }

  predicate TransferLater(t: Transfer, t': Transfer) {
    && t'.from == t.from && t'.to == t.to && t'.amount == t.amount && t'.key == t.key
    && t'.createdAt == t.createdAt
    && (t'.status == PENDING ==> t.status == PENDING)
  }

  predicate EventLater(e: OutboxEvent, e': OutboxEvent) {
    e'.payload == e.payload && (e.status == PUBLISHED ==> e'.status == PUBLISHED)
  }

  predicate WalletsLater(s: seq<Wallet>, s': seq<Wallet>) {
    |s| <= |s'| && forall i :: 0 <= i < |s| ==> WalletLater(s[i], s'[i])
  }

  predicate TransfersLater(s: seq<Transfer>, s': seq<Transfer>) {
    |s| <= |s'| && forall i :: 0 <= i < |s| ==> TransferLater(s[i], s'[i])
  }

  predicate OutboxLater(s: seq<OutboxEvent>, s': seq<OutboxEvent>) {
    |s| <= |s'| && forall i :: 0 <= i < |s| ==> EventLater(s[i], s'[i])
  }

  /** `s'` is a possible future of `s`. */
  predicate Later(s: Store, s': Store) {
    && WalletsLater(s.wallets, s'.wallets)
    && TransfersLater(s.transfers, s'.transfers)
    && s.txns <= s'.txns
    && s.ledger <= s'.ledger
    && OutboxLater(s.outbox, s'.outbox)
  }

  lemma LaterReflexive(s: Store)
    ensures Later(s, s)
  {
  }

  lemma LaterTransitive(s0: Store, s1: Store, s2: Store)
    requires Later(s0, s1) && Later(s1, s2)
    ensures Later(s0, s2)
  {
    assert forall i :: 0 <= i < |s0.wallets| ==> WalletLater(s0.wallets[i], s1.wallets[i]);
    assert forall i :: 0 <= i < |s0.transfers| ==> TransferLater(s0.transfers[i], s1.transfers[i]);
    assert forall i :: 0 <= i < |s0.outbox| ==> EventLater(s0.outbox[i], s1.outbox[i]);
  }

  lemma ApplyIsLater(s: Store, e: Effect)
    requires Applicable(s, e)
    ensures Later(s, Apply(s, e))
  {
    hide HasRecord, FindKey;
  }

  /** Documents are never removed; a transfer keeps its wallets, amount and key and never returns
      to PENDING; records and entries are never rewritten; an unchanged version means a balance
      that has not fallen. */
  lemma {:induction false} RunIsLater(y: System, actions: seq<Action>)
    ensures Later(y.store, Run(y, actions).store)
  {
    hide Step, EffectOf, Apply, Later;
    if actions == [] {
      assert Later(y.store, y.store) by { LaterReflexive(y.store); }
    } else {
      var n := |actions| - 1;
      var before := Run(y, actions[..n]);
      RunIsLater(y, actions[..n]);
      StepAppliesEffect(before, actions[n]);
      ApplyIsLater(before.store, EffectOf(before, actions[n]));
      LaterTransitive(y.store, before.store, Run(y, actions).store);
    }
  }

  // ------------------------------------------------------------ versions

  lemma ApplyBumps(s: Store, e: Effect, w: WalletId)
    requires Applicable(s, e) && w < |s.wallets|
    ensures w < |Apply(s, e).wallets|
    ensures Apply(s, e).wallets[w].version == s.wallets[w].version + Weight(Bumps(w), e)
  {
    hide HasRecord, FindKey;
  }

  /** A wallet's version counts the committed version-checked changes to it, no more and no less. */
  lemma {:induction false} VersionCountsCommits(y: System, actions: seq<Action>, w: WalletId)
    requires w < |y.store.wallets|
    ensures w < |Run(y, actions).store.wallets|
    ensures Run(y, actions).store.wallets[w].version
         == y.store.wallets[w].version + Sum(Bumps(w), History(y, actions))
  {
    hide Step, EffectOf, Apply, Weight;
    if actions != [] {
      var n := |actions| - 1;
      var before := Run(y, actions[..n]);
      VersionCountsCommits(y, actions[..n], w);
      StepAppliesEffect(before, actions[n]);
      ApplyBumps(before.store, EffectOf(before, actions[n]), w);
      SumAppend(Bumps(w), History(y, actions[..n]), EffectOf(before, actions[n]));
    }
  }

  /** Once a version-checked change to a wallet commits, every other operation that holds the same
      or an older version of it is refused for ever. */
  lemma OneCommitPerVersion(x: Execution, i: nat, j: nat, snap: Snapshot)
    requires i < j <= |x.actions|
    requires snap.id < |x.states[i].store.wallets| && snap.version <= x.states[i].store.wallets[snap.id].version
    requires Weight(Bumps(snap.id), x.Effects()[i]) == 1
    ensures !Matches(x.states[j].store, snap)
  {
    hide Step, EffectOf, Apply, Run, History;
    var y := x.states[i];
    StepAppliesEffect(y, x.actions[i]);
    ApplyBumps(y.store, EffectOf(y, x.actions[i]), snap.id);
    ExecutionIsRun(x, i + 1, j);
    VersionCountsCommits(x.states[i + 1], x.actions[i + 1..j], snap.id);
    SumNonNegative(Bumps(snap.id), x.Effects()[i + 1..j]);
  }

  // ------------------------------------------ versions and ledger entries

  function EntryCount(ledger: seq<Entry>, w: WalletId): nat {
    if ledger == [] then 0 else
      var n := |ledger| - 1;
      EntryCount(ledger[..n], w) + if ledger[n].wallet == w then 1 else 0
  }

  lemma EntryCountAppend(ledger: seq<Entry>, x: Entry, w: WalletId)
    ensures EntryCount(ledger + [x], w) == EntryCount(ledger, w) + if x.wallet == w then 1 else 0
  {
    assert (ledger + [x])[..|ledger|] == ledger;
  }

  lemma PostCountsEntry(s: Store, w: WalletId, kind: TxnKind, amount: Amount, transfer: Option<TransferId>,
                        counterparty: Option<WalletId>, bump: bool, v: WalletId)
    requires w < |s.wallets|
    ensures EntryCount(Post(s, w, kind, amount, transfer, counterparty, bump).ledger, v)
         == EntryCount(s.ledger, v) + When(v == w, 1)
  {
    EntryCountAppend(s.ledger, Entry(|s.txns|, w, kind.Direction(), amount,
                                     s.wallets[w].balance + kind.Signed(amount)), v);
  }

  lemma ExchangeCountsEntries(s: Store, from: WalletId, to: WalletId, amount: Amount, w: WalletId)
    requires from < |s.wallets| && to < |s.wallets| && from != to
    ensures EntryCount(Exchange(s, from, to, amount).ledger, w)
         == EntryCount(s.ledger, w) + When(from == w || to == w, 1)
  {
    hide EntryCount;
    var t := |s.transfers|;
    PostCountsEntry(s, from, TRANSFER_OUT, amount, Some(t), Some(to), true, w);
    PostCountsEntry(Post(s, from, TRANSFER_OUT, amount, Some(t), Some(to), true), to, TRANSFER_IN, amount,
                    Some(t), Some(from), true, w);
  }

  lemma ApplyCountsEntries(s: Store, e: Effect, w: WalletId)
    requires Applicable(s, e)
    ensures EntryCount(Apply(s, e).ledger, w) == EntryCount(s.ledger, w) + Weight(Entries(w), e)
  {
    hide HasRecord, FindKey, Post, EntryCount;
    match e
    case Deposited(x, a) => PostCountsEntry(s, x, DEPOSIT, a, None, None, true, w);
    case Withdrawn(x, a) => PostCountsEntry(s, x, WITHDRAWAL, a, None, None, true, w);
    case Transferred(f, t, a, _, _) => ExchangeCountsEntries(s, f, t, a, w);
    case Settled(t, x, a) => PostCountsEntry(s, x, TRANSFER_IN, a, Some(t), Some(s.transfers[t].from), true, w);
    case Recovered(t, x, a) => PostCountsEntry(s, x, TRANSFER_IN, a, Some(t), Some(s.transfers[t].from), false, w);
    case _ =>
  }

  lemma {:induction false} EntriesOfRun(y: System, actions: seq<Action>, w: WalletId)
    ensures EntryCount(Run(y, actions).store.ledger, w)
         == EntryCount(y.store.ledger, w) + Sum(Entries(w), History(y, actions))
  {
    hide Step, EffectOf, Apply, Weight, EntryCount;
    if actions != [] {
      var n := |actions| - 1;
      var before := Run(y, actions[..n]);
      EntriesOfRun(y, actions[..n], w);
      StepAppliesEffect(before, actions[n]);
      ApplyCountsEntries(before.store, EffectOf(before, actions[n]), w);
      SumAppend(Entries(w), History(y, actions[..n]), EffectOf(before, actions[n]));
    }
  }

  lemma {:induction false} EntriesAreBumpsAndRecoveries(h: seq<Effect>, w: WalletId)
    ensures Sum(Entries(w), h) == Sum(Bumps(w), h) + Sum(RecoveryEntries(w), h)
  {
    if h != [] {
      EntriesAreBumpsAndRecoveries(h[..|h| - 1], w);
    }
  }

  /** Over any execution a wallet's version grows by its new ledger entries minus the recovery credits
      it received, so the version counts entries exactly as long as no recovery credit lands. */
  lemma VersionArithmetic(x: Execution, w: WalletId)
    requires w < |x.First().store.wallets|
    ensures w < |x.Last().store.wallets|
    ensures x.Last().store.wallets[w].version - x.First().store.wallets[w].version
         == EntryCount(x.Last().store.ledger, w) - EntryCount(x.First().store.ledger, w)
            - Sum(RecoveryEntries(w), x.Effects())
  {
    hide Step, EffectOf, Apply, Weight, Run, History;
    WholeExecutionIsRun(x);
    VersionCountsCommits(x.First(), x.actions, w);
    EntriesOfRun(x.First(), x.actions, w);
    EntriesAreBumpsAndRecoveries(x.Effects(), w);
  }
}
