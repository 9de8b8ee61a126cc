/** Where the money is: balances against the ledger, the ledger against the transaction records,
    and the total of all balances against deposits, withdrawals and transfer records. */
module Accounting {
  import opened Types
  import opened Stores
  import opened Platform
  import opened Histories

  // -------------------------------------------- balances and the ledger

  /** Signed sum of a wallet's ledger entries. */
  function Net(ledger: seq<Entry>, w: WalletId): int {
    if ledger == [] then 0 else
      var n := |ledger| - 1;
      Net(ledger[..n], w) + if ledger[n].wallet == w then ledger[n].Signed() else 0
  }

  /** Every balance is the net of the wallet's entries, is not negative, and every entry's
      `balanceAfter` is the net of the wallet's entries up to and including it. */
  predicate Reconciled(s: Store) {
    && (forall w :: 0 <= w < |s.wallets| ==> s.wallets[w].balance == Net(s.ledger, w) && 0 <= s.wallets[w].balance)
    && (forall i :: 0 <= i < |s.ledger| ==> s.ledger[i].wallet < |s.wallets|)
    && (forall i :: 0 <= i < |s.ledger| ==> s.ledger[i].balanceAfter == Net(s.ledger[..i + 1], s.ledger[i].wallet))
  }

  lemma NetAppend(ledger: seq<Entry>, x: Entry, w: WalletId)
    ensures Net(ledger + [x], w) == Net(ledger, w) + if x.wallet == w then x.Signed() else 0
  {
    assert (ledger + [x])[..|ledger|] == ledger;
  }

  lemma {:induction false} NetAbsent(ledger: seq<Entry>, w: WalletId)
    requires forall i :: 0 <= i < |ledger| ==> ledger[i].wallet != w
    ensures Net(ledger, w) == 0
  {
    if ledger != [] {
      NetAbsent(ledger[..|ledger| - 1], w);
    }
  }

  lemma PostReconciles(s: Store, w: WalletId, kind: TxnKind, amount: Amount, transfer: Option<TransferId>,
                       counterparty: Option<WalletId>, bump: bool)
    requires Reconciled(s) && w < |s.wallets| && 0 <= s.wallets[w].balance + kind.Signed(amount)
    ensures Reconciled(Post(s, w, kind, amount, transfer, counterparty, bump))
  {
    hide Net;
    var s' := Post(s, w, kind, amount, transfer, counterparty, bump);
    var n := |s.ledger|;
    var x := s'.ledger[n];
    assert s'.ledger == s.ledger + [x] && x.Signed() == kind.Signed(amount);
    forall v | 0 <= v < |s'.wallets| ensures s'.wallets[v].balance == Net(s'.ledger, v) && 0 <= s'.wallets[v].balance {
      NetAppend(s.ledger, x, v);
    }
    assert s'.ledger[..n + 1] == s'.ledger;
    forall i | 0 <= i < |s'.ledger| ensures s'.ledger[i].balanceAfter == Net(s'.ledger[..i + 1], s'.ledger[i].wallet) {
      if i < n {
        assert s'.ledger[..i + 1] == s.ledger[..i + 1];
      }
    }
  }

  lemma OpeningReconciles(s: Store)
    requires Reconciled(s)
    ensures Reconciled(Apply(s, WalletCreated))
  {
    NetAbsent(s.ledger, |s.wallets|);
  }

  lemma BalanceNotNegative(s: Store, w: WalletId)
    requires Reconciled(s) && w < |s.wallets|
    ensures 0 <= s.wallets[w].balance
  {
  }

  lemma SameBooks(s: Store, s': Store)
    requires Reconciled(s) && s'.wallets == s.wallets && s'.ledger == s.ledger
    ensures Reconciled(s')
  {
  }

  lemma ExchangeReconciles(s: Store, from: WalletId, to: WalletId, amount: Amount)
    requires Reconciled(s) && from < |s.wallets| && to < |s.wallets| && from != to
    requires amount <= s.wallets[from].balance
    ensures Reconciled(Exchange(s, from, to, amount))
  {
    hide Net;
    var t := |s.transfers|;
    PostReconciles(s, from, TRANSFER_OUT, amount, Some(t), Some(to), true);
    PostReconciles(Post(s, from, TRANSFER_OUT, amount, Some(t), Some(to), true), to, TRANSFER_IN, amount,
                   Some(t), Some(from), true);
  }

  lemma ApplyReconciles(s: Store, e: Effect)
    requires Applicable(s, e) && Reconciled(s)
    ensures Reconciled(Apply(s, e))
  {
    hide HasRecord, FindKey, Post, Net;
    hide Reconciled;
    match e
    case WalletCreated => OpeningReconciles(s);
    case Deposited(w, a) => BalanceNotNegative(s, w); PostReconciles(s, w, DEPOSIT, a, None, None, true);
    case Withdrawn(w, a) => PostReconciles(s, w, WITHDRAWAL, a, None, None, true);
    case Transferred(f, t, a, key, at) =>
      ExchangeReconciles(s, f, t, a);
      SameBooks(Exchange(s, f, t, a), Apply(s, e));
    case Settled(t, w, a) =>
      BalanceNotNegative(s, w);
      PostReconciles(s, w, TRANSFER_IN, a, Some(t), Some(s.transfers[t].from), true);
      SameBooks(Post(s, w, TRANSFER_IN, a, Some(t), Some(s.transfers[t].from), true), Apply(s, e));
    case Recovered(t, w, a) =>
      BalanceNotNegative(s, w);
      PostReconciles(s, w, TRANSFER_IN, a, Some(t), Some(s.transfers[t].from), false);
      SameBooks(Post(s, w, TRANSFER_IN, a, Some(t), Some(s.transfers[t].from), false), Apply(s, e));
    case _ => SameBooks(s, Apply(s, e));
  }

  /** Ledger reconciliation over every interleaving, and with it: no balance is ever negative. */
  lemma {:induction false} RunReconciles(y: System, actions: seq<Action>)
    requires Reconciled(y.store)
    ensures Reconciled(Run(y, actions).store)
  {
    hide Step, EffectOf, Apply, Reconciled;
    if actions != [] {
      var n := |actions| - 1;
      var before := Run(y, actions[..n]);
      RunReconciles(y, actions[..n]);
      StepAppliesEffect(before, actions[n]);
      ApplyReconciles(before.store, EffectOf(before, actions[n]));
    }
  }

  // ------------------------------------------- aggregation in any order

  /** The grouping query: match one wallet, add credits and negated debits; no group, no result. */
  function Aggregate(entries: seq<Entry>, w: WalletId): Option<int> {
    if entries == [] then None else
      var x := entries[0];
      var rest := Aggregate(entries[1..], w);
      if x.wallet != w then rest
      else
        var contribution: int := if x.direction == CREDIT then x.amount else x.amount * -1;
        Some(contribution + (if rest.Some? then rest.value else 0))
  }

  function AggregateNet(entries: seq<Entry>, w: WalletId): int {
    var r := Aggregate(entries, w);
    if r.Some? then r.value else 0
  }

  lemma {:induction false} NetConcat(a: seq<Entry>, b: seq<Entry>, w: WalletId)
    ensures Net(a + b, w) == Net(a, w) + Net(b, w)
    decreases |b|
  {
    if b == [] {
      assert a + b == a;
    } else {
      var n := |b| - 1;
      NetConcat(a, b[..n], w);
      assert (a + b)[..|a| + n] == a + b[..n];
    }
  }

  lemma {:induction false} AggregateIsNet(entries: seq<Entry>, w: WalletId)
    ensures AggregateNet(entries, w) == Net(entries, w)
  {
    if entries != [] {
      AggregateIsNet(entries[1..], w);
      NetConcat([entries[0]], entries[1..], w);
      assert entries == [entries[0]] + entries[1..];
      assert [entries[0]][..0] == [];
      assert Net([entries[0]], w) == if entries[0].wallet == w then entries[0].Signed() else 0;
    }
  }

  lemma {:induction false} NetPermutes(a: seq<Entry>, b: seq<Entry>, w: WalletId)
    requires multiset(a) == multiset(b)
    ensures Net(a, w) == Net(b, w)
    decreases |a|
  {
    if a == [] {
      assert |b| == |multiset(b)| == 0;
    } else {
      var n := |a| - 1;
      var x := a[n];
      assert a == a[..n] + [x];
      assert x in multiset(b);
      var j :| 0 <= j < |b| && b[j] == x;
      var rest := b[..j] + b[j + 1..];
      assert b == b[..j] + [x] + b[j + 1..];
      assert multiset(b) == multiset(rest) + multiset{x};
      assert multiset(a) == multiset(a[..n]) + multiset{x};
      assert multiset(a[..n]) == multiset(a) - multiset{x} == multiset(rest);
      NetPermutes(a[..n], rest, w);
      NetConcat(b[..j], b[j + 1..], w);
      NetConcat(b[..j] + [x], b[j + 1..], w);
      NetAppend(b[..j], x, w);
    }
  }

  /** In every reachable state the grouping query gives a wallet's stored balance, in whatever
      order the database visits the entries. */
  lemma AggregateMatchesBalance(x: Execution, visited: seq<Entry>, w: WalletId)
    requires Reconciled(x.First().store) && w < |x.Last().store.wallets|
    requires multiset(visited) == multiset(x.Last().store.ledger)
    ensures AggregateNet(visited, w) == x.Last().store.wallets[w].balance
  {
    hide Step, Run, Net, Aggregate;
    WholeExecutionIsRun(x);
    RunReconciles(x.First(), x.actions);
    AggregateIsNet(visited, w);
    NetPermutes(visited, x.Last().store.ledger, w);
  }

  // --------------------------------------- the ledger and the records

  predicate Mirrors(x: Entry, r: Txn) {
    x.wallet == r.wallet && x.amount == r.amount && x.balanceAfter == r.balanceAfter
    && x.direction == r.kind.Direction()
  }

  predicate Recorded(ledger: seq<Entry>, k: TxnId) {
    exists i :: 0 <= i < |ledger| && ledger[i].txn == k
  }

  /** Entries name distinct records and mirror them; a record without an entry is a deposit or a
      withdrawal. */
  predicate DoubleEntry(s: Store) {
    && (forall i :: 0 <= i < |s.ledger| ==> s.ledger[i].txn < |s.txns| && Mirrors(s.ledger[i], s.txns[s.ledger[i].txn]))
    && (forall i, j :: 0 <= i < j < |s.ledger| ==> s.ledger[i].txn != s.ledger[j].txn)
    && (forall k :: 0 <= k < |s.txns| && !Recorded(s.ledger, k) ==>
          s.txns[k].kind == DEPOSIT || s.txns[k].kind == WITHDRAWAL)
  }

  lemma PostKeepsDoubleEntry(s: Store, w: WalletId, kind: TxnKind, amount: Amount, transfer: Option<TransferId>,
                             counterparty: Option<WalletId>, bump: bool)
    requires DoubleEntry(s) && w < |s.wallets|
    ensures DoubleEntry(Post(s, w, kind, amount, transfer, counterparty, bump))
  {
    var s' := Post(s, w, kind, amount, transfer, counterparty, bump);
    assert s'.ledger[|s.ledger|].txn == |s.txns|;
    assert forall i :: 0 <= i < |s.ledger| ==> s'.ledger[i] == s.ledger[i];
    forall k | 0 <= k < |s'.txns| && !Recorded(s'.ledger, k)
      ensures s'.txns[k].kind == DEPOSIT || s'.txns[k].kind == WITHDRAWAL
    {
      assert k < |s.txns|;
      assert !Recorded(s.ledger, k);
    }
  }

  lemma RecordOnlyKeepsDoubleEntry(s: Store, w: WalletId, kind: TxnKind, amount: Amount)
    requires DoubleEntry(s) && Applicable(s, RecordOnly(w, kind, amount))
    ensures DoubleEntry(Apply(s, RecordOnly(w, kind, amount)))
  {
  }

  lemma SameRecords(s: Store, s': Store)
    requires DoubleEntry(s) && s'.txns == s.txns && s'.ledger == s.ledger
    ensures DoubleEntry(s')
  {
  }

  lemma PostKeepsWallets(s: Store, w: WalletId, kind: TxnKind, amount: Amount, transfer: Option<TransferId>,
                         counterparty: Option<WalletId>, bump: bool)
    requires w < |s.wallets|
    ensures |Post(s, w, kind, amount, transfer, counterparty, bump).wallets| == |s.wallets|
  {
  }

  lemma ApplyKeepsDoubleEntry(s: Store, e: Effect)
    requires Applicable(s, e) && DoubleEntry(s)
    ensures DoubleEntry(Apply(s, e))
  {
    hide HasRecord, FindKey, Post, DoubleEntry;
    match e
    case RecordOnly(w, k, a) => RecordOnlyKeepsDoubleEntry(s, w, k, a);
    case Deposited(w, a) => PostKeepsDoubleEntry(s, w, DEPOSIT, a, None, None, true);
    case Withdrawn(w, a) => PostKeepsDoubleEntry(s, w, WITHDRAWAL, a, None, None, true);
    case Transferred(f, t, a, key, at) =>
      PostKeepsDoubleEntry(s, f, TRANSFER_OUT, a, Some(|s.transfers|), Some(t), true);
      PostKeepsWallets(s, f, TRANSFER_OUT, a, Some(|s.transfers|), Some(t), true);
      PostKeepsDoubleEntry(Post(s, f, TRANSFER_OUT, a, Some(|s.transfers|), Some(t), true), t, TRANSFER_IN, a,
                           Some(|s.transfers|), Some(f), true);
      SameRecords(Exchange(s, f, t, a), Apply(s, e));
    case Settled(t, w, a) =>
      PostKeepsDoubleEntry(s, w, TRANSFER_IN, a, Some(t), Some(s.transfers[t].from), true);
      SameRecords(Post(s, w, TRANSFER_IN, a, Some(t), Some(s.transfers[t].from), true), Apply(s, e));
    case Recovered(t, w, a) =>
      PostKeepsDoubleEntry(s, w, TRANSFER_IN, a, Some(t), Some(s.transfers[t].from), false);
      SameRecords(Post(s, w, TRANSFER_IN, a, Some(t), Some(s.transfers[t].from), false), Apply(s, e));
    case _ => SameRecords(s, Apply(s, e));
  }

  /** The one-to-one match of ledger entries with records survives every interleaving. */
  lemma {:induction false} RunKeepsDoubleEntry(y: System, actions: seq<Action>)
    requires DoubleEntry(y.store)
    ensures DoubleEntry(Run(y, actions).store)
  {
    hide Step, EffectOf, Apply, DoubleEntry;
    if actions != [] {
      var n := |actions| - 1;
      var before := Run(y, actions[..n]);
      RunKeepsDoubleEntry(y, actions[..n]);
      StepAppliesEffect(before, actions[n]);
      ApplyKeepsDoubleEntry(before.store, EffectOf(before, actions[n]));
    }
  }

  // ------------------------------------------- the dashboard and orphans

  /** The dashboard's totals: incoming and outgoing records of a wallet. */
  function TotalIn(txns: seq<Txn>, w: WalletId): int {
    if txns == [] then 0 else
      var n := |txns| - 1;
      TotalIn(txns[..n], w) + if txns[n].wallet == w && txns[n].kind.Incoming() then txns[n].amount else 0
  }

  function TotalOut(txns: seq<Txn>, w: WalletId): int {
    if txns == [] then 0 else
      var n := |txns| - 1;
      TotalOut(txns[..n], w) + if txns[n].wallet == w && !txns[n].kind.Incoming() then txns[n].amount else 0
  }

  /** A record counts once, with its amount, for its own wallet: DEPOSIT and TRANSFER_IN as deposited, WITHDRAWAL and
      TRANSFER_OUT as withdrawn. */
  lemma TotalsOfOne(r: Txn, w: WalletId)
    ensures TotalIn([r], w) == if r.wallet == w && (r.kind == DEPOSIT || r.kind == TRANSFER_IN) then r.amount else 0
    ensures TotalOut([r], w)
         == if r.wallet == w && (r.kind == WITHDRAWAL || r.kind == TRANSFER_OUT) then r.amount else 0
  {
    assert [r][..0] == [];
  }

  /** And the totals add up over records. */
  lemma {:induction false} TotalsAddUp(a: seq<Txn>, b: seq<Txn>, w: WalletId)
    ensures TotalIn(a + b, w) == TotalIn(a, w) + TotalIn(b, w)
    ensures TotalOut(a + b, w) == TotalOut(a, w) + TotalOut(b, w)
    decreases |b|
  {
    if b == [] {
      assert a + b == a;
    } else {
      var n := |b| - 1;
      TotalsAddUp(a, b[..n], w);
      assert (a + b)[..|a| + n] == a + b[..n];
    }
  }

  /** Signed amounts of a wallet's records that have no ledger entry. */
  function OrphanNet(txns: seq<Txn>, ledger: seq<Entry>, w: WalletId): int {
    if txns == [] then 0 else
      var n := |txns| - 1;
      OrphanNet(txns[..n], ledger, w)
      + if txns[n].wallet == w && !Recorded(ledger, n) then txns[n].kind.Signed(txns[n].amount) else 0
  }

  /** The number of records without a ledger entry. */
  function OrphanCount(txns: seq<Txn>, ledger: seq<Entry>): nat {
    if txns == [] then 0 else
      var n := |txns| - 1;
      OrphanCount(txns[..n], ledger) + if Recorded(ledger, n) then 0 else 1
  }

  lemma {:induction false} LaterEntryNoMatter(txns: seq<Txn>, ledger: seq<Entry>, x: Entry, w: WalletId)
    requires |txns| <= x.txn
    ensures OrphanNet(txns, ledger + [x], w) == OrphanNet(txns, ledger, w)
    ensures OrphanCount(txns, ledger + [x]) == OrphanCount(txns, ledger)
  {
    if txns != [] {
      var n := |txns| - 1;
      LaterEntryNoMatter(txns[..n], ledger, x, w);
      assert Recorded(ledger + [x], n) == Recorded(ledger, n) by {
        if Recorded(ledger, n) {
          var i :| 0 <= i < |ledger| && ledger[i].txn == n;
          assert (ledger + [x])[i].txn == n;
        }
      }
    }
  }

  /** How one appended record, with or without its entry, moves the dashboard's figures. */
  lemma RecordMoves(txns: seq<Txn>, ledger: seq<Entry>, r: Txn, x: Entry, w: WalletId)
    requires x.txn == |txns| && forall i :: 0 <= i < |ledger| ==> ledger[i].txn < |txns|
    ensures OrphanNet(txns + [r], ledger + [x], w) == OrphanNet(txns, ledger, w)
    ensures OrphanNet(txns + [r], ledger, w)
         == OrphanNet(txns, ledger, w) + if r.wallet == w then r.kind.Signed(r.amount) else 0
    ensures OrphanCount(txns + [r], ledger + [x]) == OrphanCount(txns, ledger)
    ensures OrphanCount(txns + [r], ledger) == OrphanCount(txns, ledger) + 1
  {
    var n := |txns|;
    assert (txns + [r])[..n] == txns;
    LaterEntryNoMatter(txns, ledger, x, w);
    assert (ledger + [x])[|ledger|].txn == n;
    assert Recorded(ledger + [x], n);
    assert !Recorded(ledger, n);
  }

  /** Taking out an entry that names a record beyond these. */
  lemma {:induction false} OtherEntryNoMatter(txns: seq<Txn>, ledger: seq<Entry>, i: nat, w: WalletId)
    requires i < |ledger| && |txns| <= ledger[i].txn
    ensures OrphanNet(txns, ledger[..i] + ledger[i + 1..], w) == OrphanNet(txns, ledger, w)
  {
    if txns != [] {
      var n := |txns| - 1;
      var rest := ledger[..i] + ledger[i + 1..];
      OtherEntryNoMatter(txns[..n], ledger, i, w);
      assert Recorded(rest, n) == Recorded(ledger, n) by {
        if Recorded(ledger, n) {
          var j :| 0 <= j < |ledger| && ledger[j].txn == n;
          assert rest[if j < i then j else j - 1].txn == n;
        }
        if Recorded(rest, n) {
          var j :| 0 <= j < |rest| && rest[j].txn == n;
          assert ledger[if j < i then j else j + 1].txn == n;
        }
      }
    }
  }

  lemma NetWithout(ledger: seq<Entry>, i: nat, w: WalletId)
    requires i < |ledger|
    ensures Net(ledger, w)
         == Net(ledger[..i] + ledger[i + 1..], w) + if ledger[i].wallet == w then ledger[i].Signed() else 0
  {
    hide Net;
    NetConcat(ledger[..i], ledger[i + 1..], w);
    NetConcat(ledger[..i] + [ledger[i]], ledger[i + 1..], w);
    NetAppend(ledger[..i], ledger[i], w);
    assert ledger == ledger[..i] + [ledger[i]] + ledger[i + 1..];
  }

  /** Entries name distinct records among these and mirror them. */
  predicate Paired(txns: seq<Txn>, ledger: seq<Entry>) {
    && (forall i :: 0 <= i < |ledger| ==> ledger[i].txn < |txns| && Mirrors(ledger[i], txns[ledger[i].txn]))
    && (forall i, j :: 0 <= i < j < |ledger| ==> ledger[i].txn != ledger[j].txn)
  }

  lemma PairedWithout(txns: seq<Txn>, ledger: seq<Entry>, i: nat)
    requires txns != [] && Paired(txns, ledger) && i < |ledger| && ledger[i].txn == |txns| - 1
    ensures Paired(txns[..|txns| - 1], ledger[..i] + ledger[i + 1..])
  {
    var rest := ledger[..i] + ledger[i + 1..];
    forall j | 0 <= j < |rest| ensures rest[j].txn < |txns| - 1 {
      assert rest[j] == ledger[if j < i then j else j + 1];
    }
  }

  /** Where entries mirror distinct records, in whatever order, the figures from the records exceed the net
      of the entries by the records that have none. */
  lemma {:induction false} PairedBalance(txns: seq<Txn>, ledger: seq<Entry>, w: WalletId)
    requires Paired(txns, ledger)
    ensures TotalIn(txns, w) - TotalOut(txns, w) == Net(ledger, w) + OrphanNet(txns, ledger, w)
    decreases |txns|
  {
    if txns == [] {
      assert ledger == [];
    } else {
      var n := |txns| - 1;
      if Recorded(ledger, n) {
        var i :| 0 <= i < |ledger| && ledger[i].txn == n;
        var rest := ledger[..i] + ledger[i + 1..];
        PairedWithout(txns, ledger, i);
        PairedBalance(txns[..n], rest, w);
        OtherEntryNoMatter(txns[..n], ledger, i, w);
        NetWithout(ledger, i, w);
        assert Mirrors(ledger[i], txns[n]);
      } else {
        assert forall i :: 0 <= i < |ledger| ==> ledger[i].txn < n;
        PairedBalance(txns[..n], ledger, w);
      }
    }
  }

  lemma PostMoves(s: Store, w: WalletId, kind: TxnKind, amount: Amount, transfer: Option<TransferId>,
                  counterparty: Option<WalletId>, bump: bool, v: WalletId)
    requires DoubleEntry(s) && w < |s.wallets|
    ensures
      var s' := Post(s, w, kind, amount, transfer, counterparty, bump);
      && OrphanNet(s'.txns, s'.ledger, v) == OrphanNet(s.txns, s.ledger, v)
      && OrphanCount(s'.txns, s'.ledger) == OrphanCount(s.txns, s.ledger)
  {
    hide OrphanNet, OrphanCount;
    var s' := Post(s, w, kind, amount, transfer, counterparty, bump);
    var r := s'.txns[|s.txns|];
    var x := s'.ledger[|s.ledger|];
    assert s'.txns == s.txns + [r] && s'.ledger == s.ledger + [x];
    RecordMoves(s.txns, s.ledger, r, x, v);
  }

  lemma RecordOnlyMoves(s: Store, w: WalletId, kind: TxnKind, amount: Amount, v: WalletId)
    requires DoubleEntry(s) && Applicable(s, RecordOnly(w, kind, amount))
    ensures
      var s' := Apply(s, RecordOnly(w, kind, amount));
      && OrphanNet(s'.txns, s'.ledger, v) == OrphanNet(s.txns, s.ledger, v) + When(w == v, kind.Signed(amount))
      && OrphanCount(s'.txns, s'.ledger) == OrphanCount(s.txns, s.ledger) + 1
  {
    hide OrphanNet, OrphanCount;
    var r := Txn(w, kind, amount, s.wallets[w].balance + kind.Signed(amount), None, None);
    RecordMoves(s.txns, s.ledger, r, Entry(|s.txns|, w, kind.Direction(), amount, 0), v);
  }

  lemma ExchangeMoves(s: Store, from: WalletId, to: WalletId, amount: Amount, v: WalletId)
    requires DoubleEntry(s) && from < |s.wallets| && to < |s.wallets|
    ensures
      var s' := Exchange(s, from, to, amount);
      && OrphanNet(s'.txns, s'.ledger, v) == OrphanNet(s.txns, s.ledger, v)
      && OrphanCount(s'.txns, s'.ledger) == OrphanCount(s.txns, s.ledger)
  {
    hide OrphanNet, OrphanCount, DoubleEntry;
    var t := |s.transfers|;
    PostKeepsDoubleEntry(s, from, TRANSFER_OUT, amount, Some(t), Some(to), true);
    PostMoves(s, from, TRANSFER_OUT, amount, Some(t), Some(to), true, v);
    PostMoves(Post(s, from, TRANSFER_OUT, amount, Some(t), Some(to), true), to, TRANSFER_IN, amount,
              Some(t), Some(from), true, v);
  }

  lemma ApplyMoves(s: Store, e: Effect, v: WalletId)
    requires Applicable(s, e) && DoubleEntry(s)
    ensures
      var s' := Apply(s, e);
      && OrphanNet(s'.txns, s'.ledger, v) == OrphanNet(s.txns, s.ledger, v) + Weight(Orphans(v), e)
      && OrphanCount(s'.txns, s'.ledger) == OrphanCount(s.txns, s.ledger) + Weight(OrphanRecords, e)
  {
    hide OrphanNet, OrphanCount, HasRecord, FindKey, Post, DoubleEntry;
    match e
    case RecordOnly(w, k, a) => RecordOnlyMoves(s, w, k, a, v);
    case Deposited(w, a) => PostMoves(s, w, DEPOSIT, a, None, None, true, v);
    case Withdrawn(w, a) => PostMoves(s, w, WITHDRAWAL, a, None, None, true, v);
    case Transferred(f, t, a, key, at) => ExchangeMoves(s, f, t, a, v);
    case Settled(t, w, a) => PostMoves(s, w, TRANSFER_IN, a, Some(t), Some(s.transfers[t].from), true, v);
    case Recovered(t, w, a) => PostMoves(s, w, TRANSFER_IN, a, Some(t), Some(s.transfers[t].from), false, v);
    case _ =>
  }

  lemma {:induction false} OrphansOfRun(y: System, actions: seq<Action>, w: WalletId)
    requires DoubleEntry(y.store)
    ensures
      var s := Run(y, actions).store;
      var h := History(y, actions);
      && OrphanNet(s.txns, s.ledger, w) == OrphanNet(y.store.txns, y.store.ledger, w) + Sum(Orphans(w), h)
      && OrphanCount(s.txns, s.ledger) == OrphanCount(y.store.txns, y.store.ledger) + Sum(OrphanRecords, h)
  {
    hide Step, EffectOf, Apply, DoubleEntry, OrphanNet, OrphanCount, Weight;
    if actions != [] {
      var n := |actions| - 1;
      var before := Run(y, actions[..n]);
      var e := EffectOf(before, actions[n]);
      OrphansOfRun(y, actions[..n], w);
      RunKeepsDoubleEntry(y, actions[..n]);
      StepAppliesEffect(before, actions[n]);
      ApplyMoves(before.store, e, w);
      SumAppend(Orphans(w), History(y, actions[..n]), e);
      SumAppend(OrphanRecords, History(y, actions[..n]), e);
    }
  }

  lemma DoubleEntryIsPaired(s: Store)
    requires DoubleEntry(s)
    ensures Paired(s.txns, s.ledger)
  {
  }

  lemma DashboardNow(x: Execution, w: WalletId)
    requires Reconciled(x.First().store) && DoubleEntry(x.First().store) && w < |x.Last().store.wallets|
    ensures
      var s := x.Last().store;
      TotalIn(s.txns, w) - TotalOut(s.txns, w) == s.wallets[w].balance + OrphanNet(s.txns, s.ledger, w)
  {
    hide Step, Run, History, DoubleEntry, TotalIn, TotalOut, OrphanNet, Net, Paired;
    WholeExecutionIsRun(x);
    RunReconciles(x.First(), x.actions);
    RunKeepsDoubleEntry(x.First(), x.actions);
    DoubleEntryIsPaired(x.Last().store);
    PairedBalance(x.Last().store.txns, x.Last().store.ledger, w);
  }

  /** From any books in order: a wallet's dashboard shows deposited minus withdrawn equal to its balance plus the
      signed amounts of the records that had no entry at the start and of exactly its deposits and
      withdrawals that have aborted since after writing their record; and there are as many more unmatched
      records as such aborts. */
  lemma DashboardGap(x: Execution, w: WalletId)
    requires Reconciled(x.First().store) && DoubleEntry(x.First().store) && w < |x.Last().store.wallets|
    ensures
      var s0, s := x.First().store, x.Last().store;
      && TotalIn(s.txns, w) - TotalOut(s.txns, w)
         == s.wallets[w].balance + OrphanNet(s0.txns, s0.ledger, w) + Sum(Orphans(w), x.Effects())
      && OrphanCount(s.txns, s.ledger) == OrphanCount(s0.txns, s0.ledger) + Sum(OrphanRecords, x.Effects())
  {
    hide Step, EffectOf, Run, History, Weight, DoubleEntry, TotalIn, TotalOut, OrphanNet, OrphanCount, Net, Paired;
    WholeExecutionIsRun(x);
    OrphansOfRun(x.First(), x.actions, w);
    DashboardNow(x, w);
  }

  /** In every state reachable from books in order a wallet's deposited minus withdrawn is its balance exactly
      when its records without an entry cancel out. */
  lemma DashboardMeans(x: Execution, w: WalletId)
    requires Reconciled(x.First().store) && DoubleEntry(x.First().store) && w < |x.Last().store.wallets|
    ensures
      var s := x.Last().store;
      TotalIn(s.txns, w) - TotalOut(s.txns, w) == s.wallets[w].balance <==> OrphanNet(s.txns, s.ledger, w) == 0
  {
    hide Step, Run, Reconciled, DoubleEntry, TotalIn, TotalOut, OrphanNet;
    DashboardNow(x, w);
  }

  // ------------------------------------------------ which records are orphans

  /** An aborted deposit or withdrawal leaves record `k` at `i`. */
  predicate OrphanedAt(x: Execution, i: nat, k: TxnId) {
    i < |x.actions| && x.Effects()[i].RecordOnly? && |x.states[i].store.txns| == k
  }

  /** How one change matches records: it leaves the old ones as they are, and its own have an entry unless it is
      an aborted session's record. */
  lemma ApplyMatches(s: Store, e: Effect, k: TxnId)
    requires Applicable(s, e) && DoubleEntry(s)
    ensures |s.txns| <= |Apply(s, e).txns|
    ensures k < |s.txns| ==> (Recorded(Apply(s, e).ledger, k) <==> Recorded(s.ledger, k))
    ensures |s.txns| <= k < |Apply(s, e).txns| ==> (!Recorded(Apply(s, e).ledger, k) <==> e.RecordOnly?)
    ensures e.RecordOnly? ==> |Apply(s, e).txns| == |s.txns| + 1
  {
    hide HasRecord, FindKey;
    var ledger, ledger' := s.ledger, Apply(s, e).ledger;
    assert ledger <= ledger';
    assert forall i :: |ledger| <= i < |ledger'| ==> |s.txns| <= ledger'[i].txn;
    if Recorded(ledger, k) {
      var i :| 0 <= i < |ledger| && ledger[i].txn == k;
      assert ledger'[i].txn == k;
    }
    if |s.txns| <= k < |Apply(s, e).txns| && !e.RecordOnly? {
      assert ledger'[|ledger| + k - |s.txns|].txn == k;
    }
  }

  lemma {:induction false} RecordsKept(x: Execution, n: nat)
    requires DoubleEntry(x.First().store) && n <= |x.actions|
    ensures DoubleEntry(x.states[n].store)
    ensures forall i :: 0 <= i <= n ==> |x.states[i].store.txns| <= |x.states[n].store.txns|
    ensures forall i :: 0 <= i < n && x.Effects()[i].RecordOnly? ==>
              |x.First().store.txns| <= |x.states[i].store.txns| < |x.states[n].store.txns|
  {
    hide Step, EffectOf, Apply, DoubleEntry, Recorded, Applicable;
    if n > 0 {
      var m := n - 1;
      var y, e := x.states[m], x.Effects()[m];
      assert x.states[n] == Step(y, x.actions[m]);
      StepAppliesEffect(y, x.actions[m]);
      RecordsKept(x, m);
      ApplyMatches(y.store, e, 0);
      ApplyKeepsDoubleEntry(y.store, e);
    }
  }

  lemma {:induction false} OrphansUpTo(x: Execution, n: nat, k: TxnId)
    requires DoubleEntry(x.First().store) && n <= |x.actions| && k < |x.states[n].store.txns|
    ensures !Recorded(x.states[n].store.ledger, k)
       <==> (k < |x.First().store.txns| && !Recorded(x.First().store.ledger, k))
            || exists i :: 0 <= i < n && OrphanedAt(x, i, k)
  {
    hide Step, EffectOf, Apply, DoubleEntry, Recorded, Applicable;
    RecordsKept(x, n);
    if n > 0 {
      var m := n - 1;
      var y, e := x.states[m], x.Effects()[m];
      assert x.states[n] == Step(y, x.actions[m]);
      StepAppliesEffect(y, x.actions[m]);
      RecordsKept(x, m);
      ApplyMatches(y.store, e, k);
      if k < |y.store.txns| {
        OrphansUpTo(x, m, k);
        assert !OrphanedAt(x, m, k);
      } else {
        assert forall i :: 0 <= i < m ==> !OrphanedAt(x, i, k);
        assert OrphanedAt(x, m, k) <==> e.RecordOnly?;
      }
    }
  }

  /** A record made since the start lacks its entry exactly when an aborted deposit or withdrawal left it; an older
      one exactly when it did so at the start. */
  lemma OrphansAreAborts(x: Execution, k: TxnId)
    requires DoubleEntry(x.First().store) && k < |x.Last().store.txns|
    ensures
      !Recorded(x.Last().store.ledger, k)
      <==> if k < |x.First().store.txns| then !Recorded(x.First().store.ledger, k)
           else exists i :: OrphanedAt(x, i, k)
  {
    hide Step, EffectOf, DoubleEntry, Recorded;
    RecordsKept(x, |x.actions|);
    OrphansUpTo(x, |x.actions|, k);
  }

  // ------------------------------------------------ the total of all money

  function Total(wallets: seq<Wallet>): int {
    if wallets == [] then 0 else Total(wallets[..|wallets| - 1]) + wallets[|wallets| - 1].balance
  }

  lemma {:induction false} TotalUpdate(wallets: seq<Wallet>, w: WalletId, x: Wallet)
    requires w < |wallets|
    ensures Total(wallets[w := x]) == Total(wallets) - wallets[w].balance + x.balance
  {
    var n := |wallets| - 1;
    if w < n {
      TotalUpdate(wallets[..n], w, x);
      assert wallets[w := x][..n] == wallets[..n][w := x];
    } else {
      assert wallets[w := x][..n] == wallets[..n];
    }
  }

  function Carried(r: Txn): int {
    if r.kind == TRANSFER_IN then r.amount else if r.kind == TRANSFER_OUT then -(r.amount as int) else 0
  }

  /** Transfer records: incoming minus outgoing. */
  function Flow(txns: seq<Txn>): int {
    if txns == [] then 0 else
      var n := |txns| - 1;
      Flow(txns[..n]) + Carried(txns[n])
  }

  lemma FlowAppend(txns: seq<Txn>, r: Txn)
    ensures Flow(txns + [r]) == Flow(txns) + Carried(r)
  {
    assert (txns + [r])[..|txns|] == txns;
  }

  lemma PostTotals(s: Store, w: WalletId, kind: TxnKind, amount: Amount, transfer: Option<TransferId>,
                   counterparty: Option<WalletId>, bump: bool)
    requires w < |s.wallets|
    ensures
      var s' := Post(s, w, kind, amount, transfer, counterparty, bump);
      && Total(s'.wallets) == Total(s.wallets) + kind.Signed(amount)
      && Flow(s'.txns) == Flow(s.txns) + if kind == TRANSFER_IN || kind == TRANSFER_OUT then kind.Signed(amount) else 0
  {
    hide Total, Flow;
    var s' := Post(s, w, kind, amount, transfer, counterparty, bump);
    TotalUpdate(s.wallets, w, s'.wallets[w]);
    FlowAppend(s.txns, s'.txns[|s.txns|]);
  }

  lemma OpeningTotal(wallets: seq<Wallet>)
    ensures Total(wallets + [Wallet(0, 0)]) == Total(wallets)
  {
    assert (wallets + [Wallet(0, 0)])[..|wallets|] == wallets;
  }

  /** The commit of `transfer` is zero-sum. */
  lemma ExchangeTotals(s: Store, from: WalletId, to: WalletId, amount: Amount)
    requires from < |s.wallets| && to < |s.wallets|
    ensures Total(Exchange(s, from, to, amount).wallets) == Total(s.wallets)
    ensures Flow(Exchange(s, from, to, amount).txns) == Flow(s.txns)
  {
    hide Total, Flow;
    var t := |s.transfers|;
    PostTotals(s, from, TRANSFER_OUT, amount, Some(t), Some(to), true);
    PostTotals(Post(s, from, TRANSFER_OUT, amount, Some(t), Some(to), true), to, TRANSFER_IN, amount,
               Some(t), Some(from), true);
  }

  lemma ApplyTotals(s: Store, e: Effect)
    requires Applicable(s, e)
    ensures
      var s' := Apply(s, e);
      && Total(s'.wallets) == Total(s.wallets) + Weight(DepositTotal, e) - Weight(WithdrawalTotal, e)
                              + Weight(SettledAmount, e) + Weight(RecoveredAmount, e)
      && Flow(s'.txns) == Flow(s.txns) + Weight(SettledAmount, e) + Weight(RecoveredAmount, e)
  {
    hide Total, Flow, HasRecord, FindKey, Post;
    match e
    case WalletCreated => OpeningTotal(s.wallets);
    case RecordOnly(w, k, a) =>
      FlowAppend(s.txns, Txn(w, k, a, s.wallets[w].balance + k.Signed(a), None, None));
    case Deposited(w, a) => PostTotals(s, w, DEPOSIT, a, None, None, true);
    case Withdrawn(w, a) => PostTotals(s, w, WITHDRAWAL, a, None, None, true);
    case Transferred(f, t, a, key, at) => ExchangeTotals(s, f, t, a);
    case Settled(t, w, a) => PostTotals(s, w, TRANSFER_IN, a, Some(t), Some(s.transfers[t].from), true);
    case Recovered(t, w, a) => PostTotals(s, w, TRANSFER_IN, a, Some(t), Some(s.transfers[t].from), false);
    case _ =>
  }

  lemma {:induction false} TotalsOfRun(y: System, actions: seq<Action>)
    ensures
      var s := Run(y, actions).store;
      var h := History(y, actions);
      && Total(s.wallets) == Total(y.store.wallets) + Sum(DepositTotal, h) - Sum(WithdrawalTotal, h)
                             + Sum(SettledAmount, h) + Sum(RecoveredAmount, h)
      && Flow(s.txns) == Flow(y.store.txns) + Sum(SettledAmount, h) + Sum(RecoveredAmount, h)
  {
    hide Step, EffectOf, Apply, Total, Flow, Weight;
    if actions != [] {
      var n := |actions| - 1;
      var before := Run(y, actions[..n]);
      var h := History(y, actions[..n]);
      var e := EffectOf(before, actions[n]);
      TotalsOfRun(y, actions[..n]);
      StepAppliesEffect(before, actions[n]);
      ApplyTotals(before.store, e);
      SumAppend(DepositTotal, h, e);
      SumAppend(WithdrawalTotal, h, e);
      SumAppend(SettledAmount, h, e);
      SumAppend(RecoveredAmount, h, e);
    }
  }

  /** The sum of all balances follows deposits and withdrawals alone if and only if neither the
      consumer nor the sweep has credited anything. */
  lemma MoneyIsConservedIff(x: Execution)
    ensures Total(x.Last().store.wallets)
         == Total(x.First().store.wallets) + Sum(DepositTotal, x.Effects()) - Sum(WithdrawalTotal, x.Effects())
       <==> forall i :: 0 <= i < |x.actions| ==> !x.Effects()[i].Settled? && !x.Effects()[i].Recovered?
  {
    hide Step, EffectOf, Run, History, Total;
    var h := x.Effects();
    WholeExecutionIsRun(x);
    TotalsOfRun(x.First(), x.actions);
    SumNonNegative(SettledAmount, h);
    SumNonNegative(RecoveredAmount, h);
    if forall i :: 0 <= i < |h| ==> !h[i].Settled? && !h[i].Recovered? {
      assert forall i :: 0 <= i < |h| ==> Weight(SettledAmount, h[i]) == 0;
      assert forall i :: 0 <= i < |h| ==> Weight(RecoveredAmount, h[i]) == 0;
    } else {
      var i :| 0 <= i < |h| && (h[i].Settled? || h[i].Recovered?);
      assert Weight(SettledAmount, h[i]) + Weight(RecoveredAmount, h[i]) > 0;
    }
  }
}
