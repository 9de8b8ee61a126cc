/** A bank without versions checks, snapshots or sessions, where every command is served alone; the
    optimistic-lock protocol refines it. */
module AtomicBank {
  import opened Types
  import opened Stores
  import opened Platform

  datatype Line = Line(wallet: WalletId, direction: Direction, amount: Amount, balanceAfter: int)

  datatype Bank = Bank(accounts: seq<Wallet>, journal: seq<Line>)

  datatype Command =
    | Open
    | Deposit(wallet: WalletId, amount: Amount)
    | Withdraw(wallet: WalletId, amount: Amount)
    | Pay(from: WalletId, to: WalletId, amount: Amount)
    | Credit(wallet: WalletId, amount: Amount, bump: bool)

  /** Add a signed amount to one account, if that does not overdraw it. */
  function Move(b: Bank, w: WalletId, direction: Direction, amount: Amount, bump: bool): Option<Bank> {
    if |b.accounts| <= w then None
    else
      var delta: int := if direction == CREDIT then amount else amount * -1;
      var balance := b.accounts[w].balance + delta;
      if direction == DEBIT && balance < 0 then None
      else
        var version := b.accounts[w].version + if bump then 1 else 0;
        Some(Bank(b.accounts[w := Wallet(balance, version)], b.journal + [Line(w, direction, amount, balance)]))
  }

  /** Serve one command at once; None is a refusal. */
  function Serve(b: Bank, c: Command): Option<Bank> {
    match c
    case Open => Some(b.(accounts := b.accounts + [Wallet(0, 0)]))
    case Deposit(w, a) => Move(b, w, CREDIT, a, true)
    case Withdraw(w, a) => Move(b, w, DEBIT, a, true)
    case Pay(f, t, a) =>
      if f == t then None
      else
        (match Move(b, f, DEBIT, a, true)
         case None => None
         case Some(debited) => Move(debited, t, CREDIT, a, true))
    case Credit(w, a, bump) => Move(b, w, CREDIT, a, bump)
  }

  /** Serve commands one after another; one refusal refuses them all. */
  function ServeAll(b: Bank, commands: seq<Command>): Option<Bank> {
    if commands == [] then Some(b) else
      var n := |commands| - 1;
      match ServeAll(b, commands[..n])
      case None => None
      case Some(before) => Serve(before, commands[n])
  }

  // -------------------------------------------------------- refinement

  function LineOf(x: Entry): Line {
    Line(x.wallet, x.direction, x.amount, x.balanceAfter)
  }

  function BankOf(s: Store): Bank {
    Bank(s.wallets, seq(|s.ledger|, i requires 0 <= i < |s.ledger| => LineOf(s.ledger[i])))
  }

  /** The command that a committed change amounts to; everything else is a stutter. */
  function CommandsOf(e: Effect): seq<Command> {
    match e
    case WalletCreated => [Open]
    case Deposited(w, a) => [Deposit(w, a)]
    case Withdrawn(w, a) => [Withdraw(w, a)]
    case Transferred(f, t, a, _, _) => [Pay(f, t, a)]
    case Settled(_, w, a) => [Credit(w, a, true)]
    case Recovered(_, w, a) => [Credit(w, a, false)]
    case _ => []
  }

  function Committed(h: seq<Effect>): seq<Command> {
    if h == [] then [] else Committed(h[..|h| - 1]) + CommandsOf(h[|h| - 1])
  }

  lemma CommittedAppend(h: seq<Effect>, e: Effect)
    ensures Committed(h + [e]) == Committed(h) + CommandsOf(e)
  {
    assert (h + [e])[..|h|] == h;
  }

  lemma PostIsMove(s: Store, w: WalletId, kind: TxnKind, amount: Amount, transfer: Option<TransferId>,
                   counterparty: Option<WalletId>, bump: bool)
    requires w < |s.wallets| && (kind.Incoming() || amount <= s.wallets[w].balance)
    ensures Move(BankOf(s), w, kind.Direction(), amount, bump)
         == Some(BankOf(Post(s, w, kind, amount, transfer, counterparty, bump)))
  {
    var s' := Post(s, w, kind, amount, transfer, counterparty, bump);
    assert BankOf(s').journal == BankOf(s).journal + [LineOf(s'.ledger[|s.ledger|])];
  }

  lemma ExchangeIsPay(s: Store, from: WalletId, to: WalletId, amount: Amount)
    requires from < |s.wallets| && to < |s.wallets| && from != to && amount <= s.wallets[from].balance
    ensures Serve(BankOf(s), Pay(from, to, amount)) == Some(BankOf(Exchange(s, from, to, amount)))
  {
    hide BankOf, Move;
    var t := |s.transfers|;
    var debited := Post(s, from, TRANSFER_OUT, amount, Some(t), Some(to), true);
    PostIsMove(s, from, TRANSFER_OUT, amount, Some(t), Some(to), true);
    PostIsMove(debited, to, TRANSFER_IN, amount, Some(t), Some(from), true);
  }

  lemma SameBank(s: Store, s': Store)
    requires s'.wallets == s.wallets && s'.ledger == s.ledger
    ensures BankOf(s') == BankOf(s)
  {
  }

  lemma ServeOneMore(b: Bank, commands: seq<Command>, c: Command, b': Bank)
    requires ServeAll(b, commands) == Some(b')
    ensures ServeAll(b, commands + [c]) == Serve(b', c)
  {
    hide Serve;
    assert (commands + [c])[..|commands|] == commands;
  }

  lemma OpenServes(s: Store)
    ensures Serve(BankOf(s), Open) == Some(BankOf(Apply(s, WalletCreated)))
  {
  }

  /** A committed change is one served command, or none and then nothing the bank knows changes. */
  lemma ApplyServes(s: Store, e: Effect)
    requires Applicable(s, e)
    ensures |CommandsOf(e)| <= 1
    ensures CommandsOf(e) == [] ==> BankOf(Apply(s, e)) == BankOf(s)
    ensures CommandsOf(e) != [] ==> Serve(BankOf(s), CommandsOf(e)[0]) == Some(BankOf(Apply(s, e)))
  {
    hide HasRecord, FindKey, Post, BankOf, Move;
    match e
    case WalletCreated => OpenServes(s);
    case Deposited(w, a) => PostIsMove(s, w, DEPOSIT, a, None, None, true);
    case Withdrawn(w, a) => PostIsMove(s, w, WITHDRAWAL, a, None, None, true);
    case Transferred(f, t, a, _, _) =>
      ExchangeIsPay(s, f, t, a);
      SameBank(Exchange(s, f, t, a), Apply(s, e));
    case Settled(t, w, a) =>
      PostIsMove(s, w, TRANSFER_IN, a, Some(t), Some(s.transfers[t].from), true);
      SameBank(Post(s, w, TRANSFER_IN, a, Some(t), Some(s.transfers[t].from), true), Apply(s, e));
    case Recovered(t, w, a) =>
      PostIsMove(s, w, TRANSFER_IN, a, Some(t), Some(s.transfers[t].from), false);
      SameBank(Post(s, w, TRANSFER_IN, a, Some(t), Some(s.transfers[t].from), false), Apply(s, e));
    case _ => SameBank(s, Apply(s, e));
  }

  lemma NothingServed(b: Bank)
    ensures ServeAll(b, []) == Some(b)
  {
  }

  lemma {:induction false} RunIsServed(y: System, actions: seq<Action>)
    ensures ServeAll(BankOf(y.store), Committed(History(y, actions))) == Some(BankOf(Run(y, actions).store))
  {
    hide Step, EffectOf, Apply, Serve, ServeAll, BankOf, CommandsOf;
    if actions == [] {
      NothingServed(BankOf(y.store));
    } else {
      var n := |actions| - 1;
      var before := Run(y, actions[..n]);
      var e := EffectOf(before, actions[n]);
      var commands := Committed(History(y, actions[..n]));
      RunIsServed(y, actions[..n]);
      StepAppliesEffect(before, actions[n]);
      ApplyServes(before.store, e);
      CommittedAppend(History(y, actions[..n]), e);
      if CommandsOf(e) == [] {
        assert commands + CommandsOf(e) == commands;
      } else {
        assert CommandsOf(e) == [CommandsOf(e)[0]];
        ServeOneMore(BankOf(y.store), commands, CommandsOf(e)[0], BankOf(before.store));
      }
    }
  }

  /** Every interleaving of reads, sessions, deliveries and sweeps leaves balances, versions and
      ledger as the atomic bank does when it serves just the committed operations in commit order,
      and the atomic bank refuses none of them.  Everything else is a stutter. */
  lemma InterleavingsAreAtomic(x: Execution)
    ensures ServeAll(BankOf(x.First().store), Committed(x.Effects())) == Some(BankOf(x.Last().store))
  {
    hide Step, EffectOf, Run, History, ServeAll, BankOf, Committed;
    WholeExecutionIsRun(x);
    RunIsServed(x.First(), x.actions);
  }

  /** The reads of a transfer request that nothing interrupts. */
  function ReadBoth(s: Store, from: WalletId, to: WalletId, amount: Amount, key: Option<Key>): Call {
    AfterFetchReceiver(s, AfterFetchSender(s, StartTransfer(s, from, to, amount, key)))
  }

  /** A request that commits changes the store as the whole request would have done had it run at
      that moment without interruption, however old its reads are. */
  lemma CommitsAsIfUninterrupted(y: System, i: nat, end: SessionEnd)
    requires i < |y.calls|
    ensures
      var e := EffectOf(y, EndCall(i, end));
      && (e.Deposited? ==> CallEffect(y.store, StartDeposit(y.store, e.wallet, e.amount), y.now, Commits) == e)
      && (e.Withdrawn? ==> CallEffect(y.store, StartWithdrawal(y.store, e.wallet, e.amount), y.now, Commits) == e)
      && (e.Transferred? ==>
            CallEffect(y.store, ReadBoth(y.store, e.from, e.to, e.amount, e.key), y.now, Commits) == e)
  {
    hide FindKey;
  }
}
