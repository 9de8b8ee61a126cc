/** `WalletsService`: the requests, each split where another operation can come in between.  Every method
    leaves the database as the decision functions say. */
module WalletService {
  import opened Types
  import opened Stores
  import opened Platform
  import opened Accounting
  import opened Databases
  import opened Caching
  import opened Idempotency
  import opened Lifecycles

  datatype Error = NotFound | SameWallet | InsufficientBalance | Conflict | SessionFailed

  datatype Result<+T> = Ok(value: T) | Err(error: Error)

  /** A record with its ledger entries, as the dashboard lists it. */
  datatype Activity = Activity(txn: Txn, entries: seq<Entry>)

  datatype DashboardView = DashboardView(
    wallet: Wallet,
    totalDeposited: int,
    totalWithdrawn: int,
    transactionCount: nat,
    recentActivity: seq<Activity>)

  /** A wallet's records, newest first. */
  function Newest(txns: seq<Txn>, w: WalletId): (r: seq<TxnId>)
    ensures forall i :: 0 <= i < |r| ==> r[i] < |txns| && txns[r[i]].wallet == w
    ensures forall i, j :: 0 <= i < j < |r| ==> r[j] < r[i]
    ensures forall k :: 0 <= k < |txns| && txns[k].wallet == w ==> k in r
  {
    if txns == [] then [] else
      var n := |txns| - 1;
      var before := Newest(txns[..n], w);
      assert forall k :: 0 <= k < n ==> txns[..n][k] == txns[k];
      if txns[n].wallet == w then [n] + before else before
  }

  /** The entries that name a record. */
  function EntriesOf(ledger: seq<Entry>, k: TxnId): (r: seq<Entry>)
    ensures forall x :: x in r <==> x in ledger && x.txn == k
    ensures forall x :: multiset(r)[x] == if x.txn == k then multiset(ledger)[x] else 0
  {
    if ledger == [] then [] else
      var n := |ledger| - 1;
      var before := EntriesOf(ledger[..n], k);
      assert ledger == ledger[..n] + [ledger[n]];
      if ledger[n].txn == k then before + [ledger[n]] else before
  }

  /** Listed records with their entries, in the order listed. */
  function Activities(s: Store, ids: seq<TxnId>): (r: seq<Activity>)
    requires forall i :: 0 <= i < |ids| ==> ids[i] < |s.txns|
    ensures |r| == |ids|
    ensures forall i :: 0 <= i < |ids| ==> r[i] == Activity(s.txns[ids[i]], EntriesOf(s.ledger, ids[i]))
  {
    if ids == [] then [] else
      var n := |ids| - 1;
      Activities(s, ids[..n]) + [Activity(s.txns[ids[n]], EntriesOf(s.ledger, ids[n]))]
  }

  function SumIn(txns: seq<Txn>, ids: seq<TxnId>): int
    requires forall i :: 0 <= i < |ids| ==> ids[i] < |txns|
  {
    if ids == [] then 0 else
      var n := |ids| - 1;
      SumIn(txns, ids[..n]) + if txns[ids[n]].kind.Incoming() then txns[ids[n]].amount else 0
  }

  function SumOut(txns: seq<Txn>, ids: seq<TxnId>): int
    requires forall i :: 0 <= i < |ids| ==> ids[i] < |txns|
  {
    if ids == [] then 0 else
      var n := |ids| - 1;
      SumOut(txns, ids[..n]) + if txns[ids[n]].kind.Incoming() then 0 else txns[ids[n]].amount
  }

  lemma {:induction false} SumsPrepend(txns: seq<Txn>, k: TxnId, ids: seq<TxnId>)
    requires k < |txns| && forall i :: 0 <= i < |ids| ==> ids[i] < |txns|
    ensures SumIn(txns, [k] + ids) == SumIn(txns, ids) + if txns[k].kind.Incoming() then txns[k].amount else 0
    ensures SumOut(txns, [k] + ids) == SumOut(txns, ids) + if txns[k].kind.Incoming() then 0 else txns[k].amount
  {
    if ids == [] {
      assert [k] + ids == [k];
      assert [k][..0] == [];
    } else {
      var n := |ids| - 1;
      SumsPrepend(txns, k, ids[..n]);
      assert ([k] + ids)[..n + 1] == [k] + ids[..n];
    }
  }

  lemma {:induction false} SumsOfPrefix(txns: seq<Txn>, more: seq<Txn>, ids: seq<TxnId>)
    requires txns <= more && forall i :: 0 <= i < |ids| ==> ids[i] < |txns|
    ensures SumIn(more, ids) == SumIn(txns, ids) && SumOut(more, ids) == SumOut(txns, ids)
  {
    if ids != [] {
      SumsOfPrefix(txns, more, ids[..|ids| - 1]);
    }
  }

  /** Adding up newest first gives the wallet's totals. */
  lemma {:induction false} TotalsNewestFirst(txns: seq<Txn>, w: WalletId)
    ensures SumIn(txns, Newest(txns, w)) == TotalIn(txns, w)
    ensures SumOut(txns, Newest(txns, w)) == TotalOut(txns, w)
  {
    if txns != [] {
      var n := |txns| - 1;
      TotalsNewestFirst(txns[..n], w);
      SumsOfPrefix(txns[..n], txns, Newest(txns[..n], w));
      if txns[n].wallet == w {
        SumsPrepend(txns, n, Newest(txns[..n], w));
      }
    }
  }

  /** With double entry a record has at most one entry. */
  lemma {:induction false} AtMostOneEntry(s: Store, m: nat, k: TxnId)
    requires DoubleEntry(s) && m <= |s.ledger|
    ensures |EntriesOf(s.ledger[..m], k)| <= 1
    ensures EntriesOf(s.ledger[..m], k) != [] ==> exists i :: 0 <= i < m && s.ledger[i].txn == k
  {
    if m > 0 {
      AtMostOneEntry(s, m - 1, k);
      assert s.ledger[..m][..m - 1] == s.ledger[..m - 1];
      assert forall i :: 0 <= i < m - 1 ==> s.ledger[i].txn != s.ledger[m - 1].txn;
      assert s.ledger[m - 1].txn == k ==> exists i :: 0 <= i < m && s.ledger[i].txn == k;
    }
  }

  /** Each listed record has its one entry, which mirrors it, or is an orphan without any. */
  lemma OneEntryOrOrphan(s: Store, k: TxnId)
    requires DoubleEntry(s) && k < |s.txns|
    ensures |EntriesOf(s.ledger, k)| == if Recorded(s.ledger, k) then 1 else 0
    ensures Recorded(s.ledger, k) ==> Mirrors(EntriesOf(s.ledger, k)[0], s.txns[k])
  {
    AtMostOneEntry(s, |s.ledger|, k);
    assert s.ledger[..|s.ledger|] == s.ledger;
    hide EntriesOf;
    var entries := EntriesOf(s.ledger, k);
    if entries != [] {
      assert entries[0] in entries;
    }
    if Recorded(s.ledger, k) {
      var i :| 0 <= i < |s.ledger| && s.ledger[i].txn == k;
      assert s.ledger[i] in s.ledger;
      assert s.ledger[i] in entries;
      assert Mirrors(s.ledger[i], s.txns[k]);
    }
  }

  /** `RedisService`: balances that answer until their expiry. */
  class RedisService {
    const ttl: nat
    var cache: Cache

    constructor (ttl: nat)
      ensures this.ttl == ttl && cache == map[]
    {
      this.ttl := ttl;
      cache := map[];
    }

    method GetCachedBalance(w: WalletId, now: Time) returns (r: Option<int>)
      ensures r == Lookup(cache, w, now)
      ensures r == if w in cache && now < cache[w].expiresAt then Some(cache[w].balance) else None
    {
      if w in cache && now < cache[w].expiresAt {
        r := Some(cache[w].balance);
      } else {
        r := None;
      }
    }

    method SetCachedBalance(w: WalletId, balance: int, now: Time)
      modifies this`cache
      ensures cache == old(cache)[w := Cached(balance, now + ttl)]
      ensures forall at: Time :: Lookup(cache, w, at) == if at < now + ttl then Some(balance) else None
    {
      cache := cache[w := Cached(balance, now + ttl)];
    }

    /** Offered by the service and called by nobody. */
    method InvalidateBalance(w: WalletId)
      modifies this`cache
      ensures cache == old(cache) - {w}
      ensures forall now :: Lookup(cache, w, now).None?
    {
      cache := cache - {w};
    }
  }

  /** Both wallets are as they were read, they are two, and the sender's covers the amount. */
  predicate Fits(wallets: seq<Wallet>, from: Snapshot, to: Snapshot, amount: Amount) {
    && from.id != to.id && from.id < |wallets| && to.id < |wallets|
    && wallets[from.id].version == from.version && wallets[to.id].version == to.version
    && amount <= wallets[from.id].balance
  }

  /** What the session of a transfer leaves and how the request goes on, outright. */
  lemma SessionLeaves(s: Store, from: Snapshot, to: Snapshot, amount: Amount, key: Option<Key>, at: Time,
                      end: SessionEnd)
    ensures
      var s' := Apply(s, TransferEffect(s, from, to, amount, key, at, end));
      var call := AfterCall(s, Transferring(from, to, amount, key), end);
      var fits := Fits(s.wallets, from, to, amount);
      var taken := key.Some? && KeyStored(s, key.value);
      && (fits && !taken && end == Commits ==>
            Moved(s, s', from.id, to.id, amount, key, at) && call == Replied(key, |s.transfers|))
      && (!(fits && !taken && end == Commits) ==> s' == s)
      && (fits && taken && end != AbortsBeforeRecord ==> call == Duplicate(key.value))
      && (!fits || end == AbortsBeforeRecord || (!taken && end != Commits) ==> call == Closed)
  {
    hide FindKey, HasRecord;
    var s' := Apply(s, TransferEffect(s, from, to, amount, key, at, end));
    if Fits(s.wallets, from, to, amount) && end == Commits && !(key.Some? && KeyStored(s, key.value)) {
      assert s'.txns == s.txns + [s'.txns[|s.txns|], s'.txns[|s.txns| + 1]];
      assert s'.ledger == s.ledger + [s'.ledger[|s.ledger|], s'.ledger[|s.ledger| + 1]];
    }
  }

  class WalletsService {
    const db: Database
    const transactions: TransactionsService
    const ledger: LedgerService
    const outbox: OutboxService
    const redis: RedisService

    ghost predicate Wired() {
      transactions.db == db && ledger.db == db && outbox.db == db
    }

    constructor (db: Database, redis: RedisService)
      ensures this.db == db && this.redis == redis && Wired()
    {
      this.db := db;
      this.redis := redis;
      transactions := new TransactionsService(db);
      ledger := new LedgerService(db);
      outbox := new OutboxService(db);
    }

    method CreateWallet(end: SessionEnd) returns (r: Result<WalletId>)
      requires Wired()
      modifies db
      ensures db.View() == if end == Commits then Apply(old(db.View()), WalletCreated) else old(db.View())
      ensures db.wallets == old(db.wallets) + if end == Commits then [Wallet(0, 0)] else []
      ensures db.outbox
           == old(db.outbox) + if end == Commits then [OutboxEvent(WalletOpened(|old(db.wallets)|), STAGED)] else []
      ensures db.transfers == old(db.transfers) && db.txns == old(db.txns) && db.ledger == old(db.ledger)
      ensures r == if end == Commits then Ok(|old(db.wallets)|) else Err(SessionFailed)
    {
      var saved := db.View();
      var w := |db.wallets|;
      db.wallets := db.wallets + [Wallet(0, 0)];
      outbox.Enqueue(WalletOpened(w));
      if end != Commits {
        db.Restore(saved);
        return Err(SessionFailed);
      }
      return Ok(w);
    }

    // ------------------------------------------------------------ reading

    method ReadWallet(w: WalletId) returns (g: Get)
      ensures g == StartGet(db.View(), w)
      ensures g == if w < |db.wallets| then Looking(w, db.wallets[w].balance) else Absent
    {
      var wallet := db.FindWallet(w);
      if wallet.None? {
        return Absent;
      }
      return Looking(w, wallet.value.balance);
    }

    /** A balance found in the cache hides the wallet's own. */
    method ReadCache(g: Get, now: Time) returns (g': Get)
      requires g.Looking?
      ensures g' == AfterCacheRead(redis.cache, g, now)
      ensures g' == if g.wallet in redis.cache && now < redis.cache[g.wallet].expiresAt
                    then Answered(redis.cache[g.wallet].balance) else Filling(g.wallet, g.balance)
    {
      var cached := redis.GetCachedBalance(g.wallet, now);
      if cached.Some? {
        return Answered(cached.value);
      }
      return Filling(g.wallet, g.balance);
    }

    method FillCache(g: Get, now: Time) returns (g': Get)
      requires g.Filling?
      modifies redis
      ensures redis.cache == CacheAfterFill(old(redis.cache), g, now, redis.ttl) && g' == AfterCacheFill(g)
      ensures redis.cache == old(redis.cache)[g.wallet := Cached(g.balance, now + redis.ttl)]
      ensures g' == Answered(g.balance)
    {
      redis.SetCachedBalance(g.wallet, g.balance, now);
      return Answered(g.balance);
    }

    /** The whole of `getWallet` without interruption: a live entry is answered and left alone, otherwise the wallet's
        own balance is answered and kept for one expiry period. */
    method GetWallet(w: WalletId, now: Time) returns (r: Result<int>)
      modifies redis
      ensures r == (match Answer(db.View(), old(redis.cache), w, now)
                    case Some(balance) => Ok(balance)
                    case None => Err(NotFound))
      ensures redis.cache == AfterGet(db.View(), old(redis.cache), w, now, redis.ttl)
      ensures r == Err(NotFound) <==> |db.wallets| <= w
      ensures
        var live := w in old(redis.cache) && now < old(redis.cache)[w].expiresAt;
        && (w < |db.wallets| && live ==> r == Ok(old(redis.cache)[w].balance))
        && (w < |db.wallets| && !live ==>
              r == Ok(db.wallets[w].balance)
              && redis.cache == old(redis.cache)[w := Cached(db.wallets[w].balance, now + redis.ttl)])
        && (|db.wallets| <= w || live ==> redis.cache == old(redis.cache))
    {
      var g := ReadWallet(w);
      if g.Absent? {
        return Err(NotFound);
      }
      g := ReadCache(g, now);
      if g.Filling? {
        g := FillCache(g, now);
      }
      return Ok(g.balance);
    }

    // ------------------------------------------------------------ deposit

    method ReadForDeposit(w: WalletId, amount: Amount) returns (r: Result<Call>)
      ensures r == if w < |db.wallets| then Ok(StartDeposit(db.View(), w, amount)) else Err(NotFound)
      ensures w < |db.wallets| ==>
        r == Ok(Depositing(Snapshot(w, db.wallets[w].balance, db.wallets[w].version), amount))
    {
      var wallet := db.FindWallet(w);
      if wallet.None? {
        return Err(NotFound);
      }
      return Ok(Depositing(wallet.value, amount));
    }

    method DepositSession(wallet: Snapshot, amount: Amount, end: SessionEnd) returns (r: Result<Wallet>)
      requires Wired()
      modifies db
      ensures db.View() == Apply(old(db.View()), DepositEffect(old(db.View()), wallet, amount, end))
      ensures r.Ok? <==> DepositEffect(old(db.View()), wallet, amount, end).Deposited?
      ensures r.Ok? ==> r.value == db.wallets[wallet.id]
      ensures r == Err(Conflict) <==> !Matches(old(db.View()), wallet)
      ensures
        var w, wallets, txns, ledger := wallet.id, old(db.wallets), old(db.txns), old(db.ledger);
        var fits := w < |wallets| && wallets[w].version == wallet.version;
        && (fits && end == Commits ==>
              var balance := wallets[w].balance + amount;
              && db.wallets == wallets[w := Wallet(balance, wallets[w].version + 1)]
              && db.ledger == ledger + [Entry(|txns|, w, CREDIT, amount, balance)])
        && (!(fits && end == Commits) ==> db.wallets == wallets && db.ledger == ledger)
        && (db.txns == if fits && end != AbortsBeforeRecord
                       then txns + [Txn(w, DEPOSIT, amount, wallets[w].balance + amount, None, None)] else txns)
      ensures db.transfers == old(db.transfers) && db.outbox == old(db.outbox)
    {
      if !(wallet.id < |db.wallets| && db.wallets[wallet.id].version == wallet.version) {
        return Err(Conflict);
      }
      var saved := db.View();
      var updated := db.IncrementWallet(wallet.id, amount, true);
      if end == AbortsBeforeRecord {
        db.Restore(saved);
        return Err(SessionFailed);
      }
      // The record is written outside the session.
      var txn := transactions.Create(wallet.id, DEPOSIT, amount, updated.balance, None, None);
      saved := saved.(txns := db.txns);
      ledger.RecordCredit(wallet.id, txn, amount, updated.balance);
      if end == AbortsAfterRecord {
        db.Restore(saved);
        return Err(SessionFailed);
      }
      return Ok(updated);
    }

    // --------------------------------------------------------- withdrawal

    method ReadForWithdrawal(w: WalletId, amount: Amount) returns (r: Result<Call>)
      ensures r.Ok? ==> r.value == StartWithdrawal(db.View(), w, amount) && r.value.Withdrawing?
      ensures r.Err? <==> StartWithdrawal(db.View(), w, amount) == Closed
      ensures r.Err? ==> r.error == if |db.wallets| <= w then NotFound else InsufficientBalance
      ensures r.Ok? <==> w < |db.wallets| && amount <= db.wallets[w].balance
      ensures r.Ok? ==> r.value == Withdrawing(Snapshot(w, db.wallets[w].balance, db.wallets[w].version), amount)
    {
      var wallet := db.FindWallet(w);
      if wallet.None? {
        return Err(NotFound);
      }
      if wallet.value.balance < amount {
        return Err(InsufficientBalance);
      }
      return Ok(Withdrawing(wallet.value, amount));
    }

    method WithdrawSession(wallet: Snapshot, amount: Amount, end: SessionEnd) returns (r: Result<Wallet>)
      requires Wired()
      modifies db
      ensures db.View() == Apply(old(db.View()), WithdrawEffect(old(db.View()), wallet, amount, end))
      ensures r.Ok? <==> WithdrawEffect(old(db.View()), wallet, amount, end).Withdrawn?
      ensures r.Ok? ==> r.value == db.wallets[wallet.id]
      ensures r == Err(Conflict)
          <==> !Matches(old(db.View()), wallet) || old(db.wallets)[wallet.id].balance < amount
      ensures
        var w, wallets, txns, ledger := wallet.id, old(db.wallets), old(db.txns), old(db.ledger);
        var fits := w < |wallets| && wallets[w].version == wallet.version && amount <= wallets[w].balance;
        && (fits && end == Commits ==>
              var balance := wallets[w].balance - amount;
              && db.wallets == wallets[w := Wallet(balance, wallets[w].version + 1)]
              && db.ledger == ledger + [Entry(|txns|, w, DEBIT, amount, balance)])
        && (!(fits && end == Commits) ==> db.wallets == wallets && db.ledger == ledger)
        && (db.txns == if fits && end != AbortsBeforeRecord
                       then txns + [Txn(w, WITHDRAWAL, amount, wallets[w].balance - amount, None, None)] else txns)
      ensures db.transfers == old(db.transfers) && db.outbox == old(db.outbox)
    {
      if !(wallet.id < |db.wallets| && amount <= db.wallets[wallet.id].balance
           && db.wallets[wallet.id].version == wallet.version) {
        return Err(Conflict);
      }
      var saved := db.View();
      var updated := db.IncrementWallet(wallet.id, WITHDRAWAL.Signed(amount), true);
      if end == AbortsBeforeRecord {
        db.Restore(saved);
        return Err(SessionFailed);
      }
      // The record is written outside the session.
      var txn := transactions.Create(wallet.id, WITHDRAWAL, amount, updated.balance, None, None);
      saved := saved.(txns := db.txns);
      ledger.RecordDebit(wallet.id, txn, amount, updated.balance);
      if end == AbortsAfterRecord {
        db.Restore(saved);
        return Err(SessionFailed);
      }
      return Ok(updated);
    }

    // ----------------------------------------------------------- transfer

    /** Up to the wallet reads: refusal, or early return on a known key. */
    method ReadForTransfer(from: WalletId, to: WalletId, amount: Amount, key: Option<Key>) returns (r: Result<Call>)
      ensures r.Ok? ==> r.value == StartTransfer(db.View(), from, to, amount, key) && r.value != Closed
      ensures r.Err? <==> StartTransfer(db.View(), from, to, amount, key) == Closed
      ensures r.Err? ==> r.error == SameWallet
      ensures r.Err? <==> from == to
      ensures from != to && key.Some? && (exists t :: 0 <= t < |db.transfers| && db.transfers[t].key == key) ==>
                && r.value.Replied? && r.value.key == key
                && r.value.transfer < |db.transfers| && db.transfers[r.value.transfer].key == key
      ensures from != to && (key.Some? ==> forall t :: 0 <= t < |db.transfers| ==> db.transfers[t].key != key) ==>
                r.value == Fetching(from, to, amount, key, Unread, Unread)
    {
      if from == to {
        return Err(SameWallet);
      }
      if key.Some? {
        var existing := db.FindTransferByKey(key.value);
        if existing.Some? {
          return Ok(Replied(key, existing.value));
        }
      }
      return Ok(Fetching(from, to, amount, key, Unread, Unread));
    }

    method FetchWallet(w: WalletId) returns (r: Fetched)
      ensures r == Fetch(db.View(), w)
      ensures r == if w < |db.wallets| then Got(Snapshot(w, db.wallets[w].balance, db.wallets[w].version)) else Missing
    {
      var wallet := db.FindWallet(w);
      if wallet.None? {
        return Missing;
      }
      return Got(wallet.value);
    }

    /** The refusals once both wallets have been read. */
    method CheckFunds(call: Call) returns (r: Result<Call>)
      requires call.Fetching? && call.sender != Unread && call.receiver != Unread
      ensures r.Ok? ==> r.value == AfterFetch(call)
      ensures r.Ok? <==> call.sender.Got? && call.receiver.Got? && call.amount <= call.sender.wallet.balance
      ensures r.Ok? ==> r.value == Transferring(call.sender.wallet, call.receiver.wallet, call.amount, call.key)
      ensures r.Err? <==> AfterFetch(call) == Closed
      ensures r.Err? ==> r.error == if call.sender.Missing? || call.receiver.Missing? then NotFound
                                    else InsufficientBalance
    {
      if call.sender.Missing? || call.receiver.Missing? {
        return Err(NotFound);
      }
      if call.sender.wallet.balance < call.amount {
        return Err(InsufficientBalance);
      }
      return Ok(Transferring(call.sender.wallet, call.receiver.wallet, call.amount, call.key));
    }

    /** The read of the sender's wallet; the request goes on when the receiver's has been read before. */
    method FetchSender(call: Call) returns (r: Result<Call>)
      requires call.Fetching? && call.sender == Unread
      ensures r.Ok? ==> r.value == AfterFetchSender(db.View(), call)
      ensures
        var w := call.source;
        var sender := if w < |db.wallets| then Got(Snapshot(w, db.wallets[w].balance, db.wallets[w].version))
                      else Missing;
        && (call.receiver == Unread ==> r == Ok(call.(sender := sender)))
        && (call.receiver != Unread ==>
              (r.Ok? <==> sender.Got? && call.receiver.Got? && call.amount <= sender.wallet.balance)
              && (r.Ok? ==> r.value == Transferring(sender.wallet, call.receiver.wallet, call.amount, call.key)))
      ensures r.Err? <==> AfterFetchSender(db.View(), call) == Closed
    {
      var sender := FetchWallet(call.source);
      var next := call.(sender := sender);
      if next.receiver == Unread {
        return Ok(next);
      }
      r := CheckFunds(next);
    }

    method FetchReceiver(call: Call) returns (r: Result<Call>)
      requires call.Fetching? && call.receiver == Unread
      ensures r.Ok? ==> r.value == AfterFetchReceiver(db.View(), call)
      ensures
        var w := call.target;
        var receiver := if w < |db.wallets| then Got(Snapshot(w, db.wallets[w].balance, db.wallets[w].version))
                        else Missing;
        && (call.sender == Unread ==> r == Ok(call.(receiver := receiver)))
        && (call.sender != Unread ==>
              (r.Ok? <==> call.sender.Got? && receiver.Got? && call.amount <= call.sender.wallet.balance)
              && (r.Ok? ==> r.value == Transferring(call.sender.wallet, receiver.wallet, call.amount, call.key)))
      ensures r.Err? <==> AfterFetchReceiver(db.View(), call) == Closed
    {
      var receiver := FetchWallet(call.target);
      var next := call.(receiver := receiver);
      if next.sender == Unread {
        return Ok(next);
      }
      r := CheckFunds(next);
    }

    /** The documents of a transfer whose wallets have been updated. */
    method InsertTransfer(from: WalletId, to: WalletId, amount: Amount, key: Option<Key>, at: Time,
                          senderBalance: int, receiverBalance: int) returns (t: TransferId)
      requires Wired()
      modifies db
      ensures t == |old(db.transfers)|
      ensures db.wallets == old(db.wallets)
      ensures db.transfers == old(db.transfers) + [Transfer(from, to, amount, PENDING, key, None, at)]
      ensures db.txns == old(db.txns) + [Txn(from, TRANSFER_OUT, amount, senderBalance, Some(t), Some(to)),
                                         Txn(to, TRANSFER_IN, amount, receiverBalance, Some(t), Some(from))]
      ensures db.ledger == old(db.ledger) + [Entry(|old(db.txns)|, from, DEBIT, amount, senderBalance),
                                             Entry(|old(db.txns)| + 1, to, CREDIT, amount, receiverBalance)]
      ensures db.outbox == old(db.outbox) + [OutboxEvent(TransferInitiated(t, from, to, amount), STAGED)]
    {
      t := |db.transfers|;
      db.transfers := db.transfers + [Transfer(from, to, amount, PENDING, key, None, at)];
      var debit := transactions.Create(from, TRANSFER_OUT, amount, senderBalance, Some(t), Some(to));
      var credit := transactions.Create(to, TRANSFER_IN, amount, receiverBalance, Some(t), Some(from));
      ledger.RecordDebit(from, debit, amount, senderBalance);
      ledger.RecordCredit(to, credit, amount, receiverBalance);
      outbox.Enqueue(TransferInitiated(t, from, to, amount));
    }

    /** The two version-checked updates of a transfer, both or none; the balances they leave. */
    method UpdateBoth(from: Snapshot, to: Snapshot, amount: Amount)
      returns (updated: bool, senderBalance: int, receiverBalance: int)
      modifies db
      ensures updated == BothMatch(old(db.View()), from, to, amount)
      ensures updated <==> Fits(old(db.wallets), from, to, amount)
      ensures !updated ==> db.View() == old(db.View())
      ensures updated ==>
        var sender, receiver := old(db.wallets)[from.id], old(db.wallets)[to.id];
        && senderBalance == sender.balance - amount && receiverBalance == receiver.balance + amount
        && db.View() == old(db.View()).(
             wallets := old(db.wallets)[from.id := Wallet(senderBalance, sender.version + 1)]
                                       [to.id := Wallet(receiverBalance, receiver.version + 1)])
    {
      senderBalance, receiverBalance := 0, 0;
      var saved := db.View();
      if !(from.id < |db.wallets| && amount <= db.wallets[from.id].balance
           && db.wallets[from.id].version == from.version) {
        return false, 0, 0;
      }
      var sender := db.IncrementWallet(from.id, TRANSFER_OUT.Signed(amount), true);
      if from.id == to.id || !(to.id < |db.wallets| && db.wallets[to.id].version == to.version) {
        db.Restore(saved);
        return false, 0, 0;
      }
      var receiver := db.IncrementWallet(to.id, amount, true);
      return true, sender.balance, receiver.balance;
    }

    /** The session of a transfer; `Closed` stands for a thrown error. */
    method TransferSession(from: Snapshot, to: Snapshot, amount: Amount, key: Option<Key>, at: Time, end: SessionEnd)
      returns (call: Call)
      requires Wired()
      modifies db
      ensures db.View() == Apply(old(db.View()), TransferEffect(old(db.View()), from, to, amount, key, at, end))
      ensures call == AfterCall(old(db.View()), Transferring(from, to, amount, key), end)
      ensures
        var fits := Fits(old(db.wallets), from, to, amount);
        var taken := key.Some? && KeyStored(old(db.View()), key.value);
        && (fits && !taken && end == Commits ==>
              Moved(old(db.View()), db.View(), from.id, to.id, amount, key, at)
              && call == Replied(key, |old(db.transfers)|))
        && (!(fits && !taken && end == Commits) ==> db.View() == old(db.View()))
        && (fits && taken && end != AbortsBeforeRecord ==> call == Duplicate(key.value))
        && (!fits || end == AbortsBeforeRecord || (!taken && end != Commits) ==> call == Closed)
    {
      hide FindKey, HasRecord, Apply, TransferEffect, AfterCall;
      SessionLeaves(db.View(), from, to, amount, key, at, end);
      var saved := db.View();
      var updated, senderBalance, receiverBalance := UpdateBoth(from, to, amount);
      if !updated {
        return Closed;
      }
      if end == AbortsBeforeRecord {
        db.Restore(saved);
        return Closed;
      }
      if key.Some? {
        // The unique index refuses a second document.
        var existing := db.FindTransferByKey(key.value);
        if existing.Some? {
          db.Restore(saved);
          return Duplicate(key.value);
        }
      }
      var t := InsertTransfer(from.id, to.id, amount, key, at, senderBalance, receiverBalance);
      if end == AbortsAfterRecord {
        db.Restore(saved);
        return Closed;
      }
      return Replied(key, t);
    }

    /** The handler of a duplicate-key error. */
    method LookUpDuplicate(key: Key) returns (call: Call)
      ensures call == AfterLookUp(db.View(), Duplicate(key))
      ensures (exists t :: 0 <= t < |db.transfers| && db.transfers[t].key == Some(key)) ==>
                && call.Replied? && call.key == Some(key)
                && call.transfer < |db.transfers| && db.transfers[call.transfer].key == Some(key)
      ensures (forall t :: 0 <= t < |db.transfers| ==> db.transfers[t].key != Some(key)) ==> call == Closed
    {
      var existing := db.FindTransferByKey(key);
      if existing.None? {
        return Closed;
      }
      return Replied(Some(key), existing.value);
    }

    // ---------------------------------------------------------- dashboard

    method FindNewest(w: WalletId) returns (ids: seq<TxnId>)
      ensures ids == Newest(db.txns, w)
    {
      ids := [];
      for i := 0 to |db.txns|
        invariant ids == Newest(db.txns[..i], w)
      {
        assert db.txns[..i + 1][..i] == db.txns[..i];
        if db.txns[i].wallet == w {
          ids := [i] + ids;
        }
      }
      assert db.txns[..|db.txns|] == db.txns;
    }

    method FindEntries(k: TxnId) returns (entries: seq<Entry>)
      ensures entries == EntriesOf(db.ledger, k)
    {
      entries := [];
      for i := 0 to |db.ledger|
        invariant entries == EntriesOf(db.ledger[..i], k)
      {
        assert db.ledger[..i + 1][..i] == db.ledger[..i];
        if db.ledger[i].txn == k {
          entries := entries + [db.ledger[i]];
        }
      }
      assert db.ledger[..|db.ledger|] == db.ledger;
    }

    /** The loop over a wallet's records. */
    method SumUp(ids: seq<TxnId>)
      returns (totalDeposited: int, totalWithdrawn: int, recentActivity: seq<Activity>)
      requires forall i :: 0 <= i < |ids| ==> ids[i] < |db.txns|
      ensures totalDeposited == SumIn(db.txns, ids) && totalWithdrawn == SumOut(db.txns, ids)
      ensures recentActivity == Activities(db.View(), ids)
    {
      hide EntriesOf;
      totalDeposited, totalWithdrawn, recentActivity := 0, 0, [];
      for i := 0 to |ids|
        invariant totalDeposited == SumIn(db.txns, ids[..i])
        invariant totalWithdrawn == SumOut(db.txns, ids[..i])
        invariant recentActivity == Activities(db.View(), ids[..i])
      {
        var txn := db.txns[ids[i]];
        var entries := FindEntries(ids[i]);
        assert ids[..i + 1][..i] == ids[..i];
        if txn.kind == DEPOSIT || txn.kind == TRANSFER_IN {
          totalDeposited := totalDeposited + txn.amount;
        } else {
          totalWithdrawn := totalWithdrawn + txn.amount;
        }
        recentActivity := recentActivity + [Activity(txn, entries)];
      }
      assert ids[..|ids|] == ids;
    }

    method GetDashboard(w: WalletId) returns (r: Result<DashboardView>)
      ensures r.Err? <==> |db.wallets| <= w
      ensures r.Ok? ==>
        r.value == DashboardView(db.wallets[w], TotalIn(db.txns, w), TotalOut(db.txns, w), |Newest(db.txns, w)|,
                                 Take(Activities(db.View(), Newest(db.txns, w)), 10))
      ensures r.Ok? ==>
        var newest, shown := Newest(db.txns, w), r.value.recentActivity;
        && |shown| == (if |newest| < 10 then |newest| else 10)
        && forall i :: 0 <= i < |shown| ==> shown[i] == Activity(db.txns[newest[i]], EntriesOf(db.ledger, newest[i]))
    {
      hide Newest, TotalIn, TotalOut, Activities, SumIn, SumOut;
      if |db.wallets| <= w {
        return Err(NotFound);
      }
      var ids := FindNewest(w);
      var totalDeposited, totalWithdrawn, recentActivity := SumUp(ids);
      TotalsNewestFirst(db.txns, w);
      return Ok(DashboardView(db.wallets[w], totalDeposited, totalWithdrawn, |ids|, Take(recentActivity, 10)));
    }
  }
}
