/** Counting and adding up over the committed changes of a run. */
module Histories {
  import opened Types
  import opened Stores

  datatype Measure =
    | Bumps(wallet: WalletId)              // version increments of a wallet
    | Entries(wallet: WalletId)            // ledger entries of a wallet
    | Orphans(wallet: WalletId)            // signed amounts of records left by aborted sessions
    | OrphanRecords                        // number of such records
    | DepositTotal
    | WithdrawalTotal
    | SettledAmount                        // money credited by the consumer
    | RecoveredAmount                      // money credited by the recovery sweep
    | Settlements(transfer: TransferId)    // consumer credits of a transfer
    | Recoveries(transfer: TransferId)     // recovery credits of a transfer
    | Credits(transfer: TransferId)        // both
    | RecoveryEntries(wallet: WalletId)    // recovery credits of a wallet

  /** The number itself when the condition holds, nothing otherwise. */
  function When(c: bool, n: int): int {
    if c then n else 0
  }

  /** What one change contributes to a measure. */
  function Weight(m: Measure, e: Effect): int {
    match m
    case Bumps(w) =>
      (match e
       case Deposited(x, _) => When(x == w, 1)
       case Withdrawn(x, _) => When(x == w, 1)
       case Transferred(f, t, _, _, _) => When(f == w || t == w, 1)
       case Settled(_, x, _) => When(x == w, 1)
       case _ => 0)
    case Entries(w) =>
      (match e
       case Deposited(x, _) => When(x == w, 1)
       case Withdrawn(x, _) => When(x == w, 1)
       case Transferred(f, t, _, _, _) => When(f == w || t == w, 1)
       case Settled(_, x, _) => When(x == w, 1)
       case Recovered(_, x, _) => When(x == w, 1)
       case _ => 0)
    case RecoveryEntries(w) => if e.Recovered? then When(e.to == w, 1) else 0
    case Orphans(w) => if e.RecordOnly? && e.wallet == w then e.kind.Signed(e.amount) else 0
    case OrphanRecords => When(e.RecordOnly?, 1)
    case DepositTotal => if e.Deposited? then e.amount else 0
    case WithdrawalTotal => if e.Withdrawn? then e.amount else 0
    case SettledAmount => if e.Settled? then e.amount else 0
    case RecoveredAmount => if e.Recovered? then e.amount else 0
    case Settlements(t) => if e.Settled? then When(e.transfer == t, 1) else 0
    case Recoveries(t) => if e.Recovered? then When(e.transfer == t, 1) else 0
    case Credits(t) => if e.Settled? || e.Recovered? then When(e.transfer == t, 1) else 0
  }

  function Sum(m: Measure, h: seq<Effect>): int {
    if h == [] then 0 else Sum(m, h[..|h| - 1]) + Weight(m, h[|h| - 1])
  }

  lemma SumAppend(m: Measure, h: seq<Effect>, e: Effect)
    ensures Sum(m, h + [e]) == Sum(m, h) + Weight(m, e)
  {
    assert (h + [e])[..|h|] == h;
  }

  predicate Counting(m: Measure) {
    m.Bumps? || m.Entries? || m.OrphanRecords? || m.Settlements? || m.Recoveries? || m.Credits?
    || m.RecoveryEntries? || m.DepositTotal? || m.WithdrawalTotal? || m.SettledAmount? || m.RecoveredAmount?
  }

  lemma {:induction false} SumNonNegative(m: Measure, h: seq<Effect>)
    requires Counting(m)
    ensures 0 <= Sum(m, h)
    ensures Sum(m, h) == 0 <==> forall i :: 0 <= i < |h| ==> Weight(m, h[i]) == 0
  {
    if h != [] {
      var n := |h| - 1;
      SumNonNegative(m, h[..n]);
      assert forall i :: 0 <= i < n ==> h[..n][i] == h[i];
      assert 0 <= Weight(m, h[n]);
    }
  }

  /** A count is at most one exactly when no two positions contribute to it. */
  lemma {:induction false} SumAtMostOne(m: Measure, h: seq<Effect>)
    requires m.Settlements? || m.Recoveries? || m.Credits?
    ensures Sum(m, h) <= 1
        <==> forall i, j :: 0 <= i < j < |h| ==> Weight(m, h[i]) == 0 || Weight(m, h[j]) == 0
  {
    if h != [] {
      var n := |h| - 1;
      SumAtMostOne(m, h[..n]);
      SumNonNegative(m, h[..n]);
      assert forall i :: 0 <= i < n ==> h[..n][i] == h[i];
      assert Weight(m, h[n]) == 0 || Weight(m, h[n]) == 1;
    }
  }

  lemma {:induction false} CreditsAreBoth(h: seq<Effect>, t: TransferId)
    ensures Sum(Credits(t), h) == Sum(Settlements(t), h) + Sum(Recoveries(t), h)
  {
    if h != [] {
      CreditsAreBoth(h[..|h| - 1], t);
    }
  }
}
